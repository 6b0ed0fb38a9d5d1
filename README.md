# ASL head-array firmware, modelled in Dafny

This project models the firmware of the ASL head array (firmware/ASL_EFX35.X),
a PIC18 controller that reads the pads of a wheelchair head array, drives two
12-bit DACs with the resulting speed and direction demands, shows each pad's
state on an LED, beeps to announce what it does, keeps its settings in the
on-chip EEPROM, and answers a Hand-Held Programmer (HHP) over a serial link.
Each module of the firmware is a Dafny module of the same name:

- `Bytes`, `Wrappers`: the fixed-width integers of the target (`byte` for
  uint8_t, `u16` for uint16_t, the 8- and 16-bit wrap-arounds, signed int16
  reinterpretation) and an optional value.
- `Stopwatch` (common/stopwatch.c): millisecond stopwatches over one
  free-running tick counter; elapsed time is computed in the counter's own
  unsigned arithmetic, so it is right across a roll-over.
- `EepromBsp` (bsp/CCS/eeprom_bsp.c): the 256-byte data EEPROM, written and
  read byte by byte through 8-bit addresses, as a class over an array.
- `EepromApp` (app/eeprom_app.c): the item store. A memory map lays the
  typed items (8-bit, 16-bit little-endian, enumeration) out in a 46-byte RAM
  image; the setters mark what changed, with per-item flags, a dirty flag and
  a wrapping update counter; `eepromFlush` writes the marked items back;
  start-up loads the image, migrates older data-structure versions or writes
  the defaults.
- `HhpInterface` (drivers/ha_hhp_interface.c): reading one length-prefixed
  frame into the 8-byte receive buffer.
- `HhpApp` (app/ha_hhp_interface_app.c): the HHP protocol. A frame
  `<LEN><CMD><DATA...><CHKSUM>` is checked and dispatched on its command; the
  handlers read and write the item store and build a response
  `<LEN><DATA...><CHKSUM>` in the transmit buffer. Each handler is a method
  over the receive and transmit arrays and the store, proved against a
  function that gives its response and its new settings.
- `GenOutCtrl` (drivers/general_output_ctrl.c): the output controllers. Each
  LED has a controller with a list of states, each a list of on/off steps with
  repeat counts, a priority and a one-shot flag, and a test mode that swaps the
  current state out; the controller walks its steps as time is reported.
- `GenOutCtrlApp` (app/general_output_ctrl_app.c): the three-slot ring
  buffer of state-change requests other tasks fill, and the output-control
  task that drains it in order and then advances the controllers.
- `Features`, `AppCommon` (app/app_common.c): the feature list and its
  cycling searches, and the device-active and calibration flags.
- `BeepPatterns`, `Beeper` (app/beeper.c): the beep patterns, their cycle
  tables and priorities, and the beeper task that plays a pattern cycle by
  cycle. A request is meant to take over from a running pattern of lower
  priority; the task as written drops every request made while a pattern
  plays (see Findings), and the corrected arbitration is modelled beside it.
- `UserButton` (app/user_button.c): the debouncing state machine over the
  switch pattern.
- `HeadArray` (app/head_array.c): the pad input task: neutral wait, edge
  reports to the LED controllers, the outputs' off flag, and the feature sync.
  The task's neutral wait calls InNeutralState as written, which passes only
  all pads pressed (see Findings); the pass functions take the neutral test
  as a parameter, so the intended test is modelled beside it.
- `MainState` (app/MainState.c): the main task's state engine: start-up,
  out-of-neutral-at-power-up check, driving, the user-switch hold, idle and
  Bluetooth mode.
- `DacBsp` (bsp/CCS/dac_bsp.c): the bit-banged DAC interface; every pin
  write goes into a trace, and a model of the receiving DAC (a shift register
  clocked on rising edges, loaded by the latch) reads the trace back.

Code that updates variables in place is modelled as classes with `modifies`
frames (the stopwatch, the EEPROM and its store, the output controllers, the
request queue, the beeper, button, head-array and main tasks, the DAC port);
each method's `ensures` ties its new state to a function of the old one, and
the properties the firmware promises are proved about those functions. One
pass of a task's endless loop is one method call; the scheduler is left out.

Constants and conventions the model fixes where the shown sources leave them
open:

- TimerTick_t is taken as 16 bits wide (`Stopwatch.TickModulus`).
- MAIN_TASK_DELAY is a positive constructor parameter of `MainState.MainTask`.
- The enumerations whose headers are not shown are numbered in the order the
  code uses them: output functions LEFT 0, RIGHT 1, FWD 2, REV 3, NONE 4
  (the DAC table of app/head_array.c:129-133); input types DIGITAL 0,
  PROPORTIONAL 1, EOL 2.
- FUNC_FEATURE_POWER_ON_OFF, used by SetDefaultValues but commented out of
  app_common.h, is taken as feature 0.
- ASSERT is compiled out outside DEBUG (stdlib/user_assert.h:27-31), so a
  failed assertion changes nothing; the type assertions of the EEPROM setters
  are kept as preconditions, since the firmware calls each setter only on
  items of its type.
- The EEPROM image is 46 bytes, the size of the struct the memory map
  describes (MM_NUM_BYTES is 45).
- The HHP transmit buffer has 10 bytes in the model (see Findings); the
  firmware declares 8.

## Model

| member | source | states |
|---|---|---|
| Stopwatch.Elapsed | firmware/ASL_EFX35.X/common/stopwatch.c:101-116 | the elapsed count r satisfies start + r = now modulo 2^16, and r is 0 exactly when the start time equals the current time |
| Stopwatch.ElapsedAcrossRollover | firmware/ASL_EFX35.X/common/stopwatch.c:105-108 | for any delay shorter than one counter roll-over, the unsigned difference is the true delay, even when the counter wrapped in between |
| Stopwatch.UntilLimit | firmware/ASL_EFX35.X/common/stopwatch.c:125-137 | the remaining time never exceeds the limit, is 0 exactly when the elapsed time has reached the limit, and otherwise adds up with the elapsed time to the limit |
| Stopwatch.WatchOperations | firmware/ASL_EFX35.X/common/stopwatch.c:54-80 | Start makes an active watch that reads 0 now and d after d ticks; Stop clears only the active flag and keeps the start time; Zero keeps the active flag and reads 0 now |
| Stopwatch.Clock.constructor | firmware/ASL_EFX35.X/common/stopwatch.c:44 | the module time starts at 0 |
| Stopwatch.Clock.Tick | firmware/ASL_EFX35.X/common/stopwatch.c:145-148 | the time goes up by one millisecond, modulo 2^16 |
| Stopwatch.StopWatch.constructor | firmware/ASL_EFX35.X/common/inc/stopwatch.h:40-44 | a zero-initialised static stopwatch: start time 0, inactive |
| Stopwatch.StopWatch.Start | firmware/ASL_EFX35.X/common/stopwatch.c:54-58 | the watch reads the current time as its start and is active |
| Stopwatch.StopWatch.Stop | firmware/ASL_EFX35.X/common/stopwatch.c:66-69 | only the active flag changes, to false |
| Stopwatch.StopWatch.Zero | firmware/ASL_EFX35.X/common/stopwatch.c:77-80 | the start time becomes the current time; the active flag is kept |
| Stopwatch.StopWatch.TimeElapsed | firmware/ASL_EFX35.X/common/stopwatch.c:101-116 | returns the wrap-around elapsed time since the old start time, and restarts the watch at the current time exactly when asked to |
| Stopwatch.StopWatch.TimeUntilLimit | firmware/ASL_EFX35.X/common/stopwatch.c:125-137 | returns the remaining time to the limit: at most the limit, and 0 exactly when the elapsed time reached it |
| EepromBsp.Written | firmware/ASL_EFX35.X/bsp/CCS/eeprom_bsp.c:145-177 | the EEPROM after a buffer write, with the 8-bit address start + i wrapping at 256; it keeps the EEPROM size |
| EepromBsp.Section | firmware/ASL_EFX35.X/bsp/CCS/eeprom_bsp.c:205-212 | the bytes read from start on, with the same 8-bit addressing; exactly n of them |
| EepromBsp.WrittenStep | firmware/ASL_EFX35.X/bsp/CCS/eeprom_bsp.c:152-162 | each loop pass of writeBuffer extends the write by one address, start + i |
| EepromBsp.ReadAfterWrite | firmware/ASL_EFX35.X/bsp/CCS/eeprom_bsp.c:87-122 | reading back a region just written returns exactly the data written |
| EepromBsp.WrittenContiguous | firmware/ASL_EFX35.X/bsp/CCS/eeprom_bsp.c:89-165 | under the bound start + n < 256 that the driver asserts, a write stores data[i] at start + i and leaves every other address untouched |
| EepromBsp.SectionContiguous | firmware/ASL_EFX35.X/bsp/CCS/eeprom_bsp.c:112-212 | under the same bound a read is the contiguous slice start .. start + n - 1 |
| EepromBsp.Eeprom.constructor | firmware/ASL_EFX35.X/bsp/CCS/eeprom_bsp.c:34 | a 256-byte device holding the given contents |
| EepromBsp.Eeprom.WriteBuffer | firmware/ASL_EFX35.X/bsp/CCS/eeprom_bsp.c:87-195 | writes the first n bytes of the data from start on, and reports success, since the EEPROM is always reported writable |
| EepromBsp.Eeprom.WriteByte | firmware/ASL_EFX35.X/bsp/CCS/eeprom_bsp.c:68-77 | changes exactly the one address, to the given byte, and reports success |
| EepromBsp.Eeprom.ReadSection | firmware/ASL_EFX35.X/bsp/CCS/eeprom_bsp.c:110-212 | the first n buffer bytes receive the bytes at start + i, the rest of the buffer is untouched, and the read reports success |
| HhpInterface.FirstTimeout | firmware/ASL_EFX35.X/drivers/ha_hhp_interface.c:71-74 | the index where the byte-reading loop stops: every earlier read succeeded, and the read there timed out unless it is the frame's end |
| HhpInterface.Filled | firmware/ASL_EFX35.X/drivers/ha_hhp_interface.c:71-74 | the buffer with bytes 1 .. f - 1 taken from successive reads; its length is kept |
| HhpInterface.RxPacket | firmware/ASL_EFX35.X/drivers/ha_hhp_interface.c:61-83 | the result of reading one frame; the buffer stays 8 bytes long, so no byte is written past index 7 |
| HhpInterface.RxRejectsLength | firmware/ASL_EFX35.X/drivers/ha_hhp_interface.c:66-80 | a failed first read or a length byte above 8 gives false after that one read, and bytes 1 .. 7 are untouched |
| HhpInterface.RxOkIff | firmware/ASL_EFX35.X/drivers/ha_hhp_interface.c:61-83 | a frame is received exactly when its length byte is read and at most 8, and each of its remaining bytes is read in time |
| HhpInterface.RxFillsInOrder | firmware/ASL_EFX35.X/drivers/ha_hhp_interface.c:66-74 | on success the buffer holds the length byte and then bytes 1 .. len - 1 from successive reads, one read per byte; bytes from len on are untouched |
| HhpInterface.RxStopsAtTimeout | firmware/ASL_EFX35.X/drivers/ha_hhp_interface.c:71-74 | the first failed read of a frame byte ends the loop with false: every earlier byte is stored, the failed one and later ones are untouched |
| HhpInterface.RxShortFrame | firmware/ASL_EFX35.X/drivers/ha_hhp_interface.c:63-71 | a length byte of 0 or 1 makes a complete frame with no further read |
| HhpInterface.RxPacketInto | firmware/ASL_EFX35.X/drivers/ha_hhp_interface.c:61-83 | the loop over the receive buffer returns the result, leaves the buffer and makes exactly the reads RxPacket describes |
| AppCommon.EnabledTable | firmware/ASL_EFX35.X/app/app_common.c:79-109 | the answers of appCommonFeatureIsEnabled for each of the features, all false |
| AppCommon.GetNextFeature | firmware/ASL_EFX35.X/app/app_common.c:181-197 | the answer is EOL exactly when no feature is enabled; otherwise it is an enabled feature, the first one met scanning forward from DRIVING + 1 with wrap-around |
| AppCommon.GetPreviousEnabledFeature | firmware/ASL_EFX35.X/app/app_common.c:153-173 | when some feature is enabled the answer is the first enabled one met scanning backward from the last feature; when none is, the answer is the last feature checked, DRIVING, and never EOL |
| AppCommon.FeatureCyclingToday | firmware/ASL_EFX35.X/app/app_common.c:79-197 | with every feature reported disabled, the next feature is always EOL and the previous one always DRIVING |
| AppCommon.Flags.constructor | firmware/ASL_EFX35.X/app/app_common.c:64-71 | both flags start cleared |
| AppCommon.Flags.Init | firmware/ASL_EFX35.X/app/app_common.c:64-71 | AppCommonInit clears the device-active and the calibration flag |
| AppCommon.Flags.DeviceActiveSet | firmware/ASL_EFX35.X/app/app_common.c:217-227 | sets the active flag, and requests a neutral test exactly on an inactive-to-active transition |
| AppCommon.Flags.ForceActiveState | firmware/ASL_EFX35.X/app/app_common.c:205-208 | sets the active flag and never requests a neutral test |
| AppCommon.Flags.CalibrationActiveSet | firmware/ASL_EFX35.X/app/app_common.c:248-263 | the calibration flag then reads back what was set; the active flag is kept |
| BeepPatterns.Index | firmware/ASL_EFX35.X/app/inc/beeper.h:31-47 | the enumerator values of BeepPattern_t: at most 12, and 12 exactly for the EOL entry |
| BeepPatterns.IndexInjective | firmware/ASL_EFX35.X/app/inc/beeper.h:31-47 | distinct patterns have distinct enumerator values |
| UserButton.SwitchStatus | firmware/ASL_EFX35.X/app/user_button.c:138-149 | the mode-port button is reported on the user-switch bit, the mode-switch bit is never set, so the pattern is only ever 0 or USER_SWITCH |
| UserButton.Initial | firmware/ASL_EFX35.X/app/user_button.c:105-115 | the machine starts in WAIT_FOR_NO_SWITCHES when a switch is active at init, and in INIT otherwise; the start state satisfies the machine's invariant |
| UserButton.StepKeepsInv | firmware/ASL_EFX35.X/app/user_button.c:172-304 | every pass keeps the invariant: the saved pattern is 0 or USER_SWITCH, PROCESS_MODE and WAIT_LONGER are never entered, and a debounce runs on a started stopwatch |
| UserButton.ModeSwitchNeverActive | firmware/ASL_EFX35.X/app/user_button.c:419-422 | IsModeSwitchActive, true only in PROCESS_MODE, is false in every reachable state |
| UserButton.BeepExactlyOnDebouncedPress | firmware/ASL_EFX35.X/app/user_button.c:196-235 | the short-press beep is asked for exactly when a debounce ends with the same switch held for at least 50 ms, and the machine then moves to PROCESS_USER |
| UserButton.HeldPressIsAnnounced | firmware/ASL_EFX35.X/app/user_button.c:184-215 | a press seen while waiting starts the debounce, and the same press still held 50 ms or more later, even across a counter roll-over, is announced |
| UserButton.ReleaseReturnsToWaiting | firmware/ASL_EFX35.X/app/user_button.c:176-304 | with every switch released, any reachable state comes back to WAIT_FOR_ACTIVE within three passes without a beep |
| UserButton.StuckButtonIsNotAnnounced | firmware/ASL_EFX35.X/app/user_button.c:110-295 | a switch held from start-up is never announced: the machine stays in WAIT_FOR_NO_SWITCHES for as long as it is held |
| UserButton.ButtonMonitor.constructor | firmware/ASL_EFX35.X/app/user_button.c:63-64 | the file-scope state and pattern start at 0, with a stopped stopwatch |
| UserButton.ButtonMonitor.Init | firmware/ASL_EFX35.X/app/user_button.c:105-115 | userButtonInit sets the start state that Initial describes and keeps the saved pattern |
| UserButton.ButtonMonitor.IsModeSwitchActive | firmware/ASL_EFX35.X/app/user_button.c:419-422 | true exactly in PROCESS_MODE |
| UserButton.ButtonMonitor.MonitorStep | firmware/ASL_EFX35.X/app/user_button.c:172-304 | one loop pass changes the state, pattern and stopwatch as Stepped says, and asks for the beep exactly when Stepped does |
| EepromApp.AddrChain | firmware/ASL_EFX35.X/app/eeprom_app.c:54-101 | the memory map: item 0 at address 0 and every other item at the address where the item before it ends, with 1-byte bool, enum and uint8 items and 2-byte uint16 items |
| EepromApp.AddrMonotone | firmware/ASL_EFX35.X/app/eeprom_app.c:54-101 | an earlier item ends at or before the start of any later item, so items never overlap |
| EepromApp.AddrValues | firmware/ASL_EFX35.X/app/eeprom_app.c:54-101 | the address of each of the 30 items, as the MM_* chain works them out |
| EepromApp.LastItemEnd | firmware/ASL_EFX35.X/app/eeprom_app.c:101-186 | the last item starts at MM_NUM_BYTES = 45, and the items end at 46, the size of the item struct |
| EepromApp.ItemInImage | firmware/ASL_EFX35.X/app/eeprom_app.c:134-192 | every item lies inside the 46-byte image |
| EepromApp.MemoryMapLayout | firmware/ASL_EFX35.X/app/eeprom_app.c:54-192 | the offsets are contiguous with sizes 1 or 2 in struct field order; the long-press time is at 7, the features at 9, the neutral range at 39, the version at 41, features2 at 45; the bytes view of MM_NUM_BYTES bytes is one byte short of the struct |
| EepromApp.ItemOfBounds | firmware/ASL_EFX35.X/app/eeprom_app.c:54-101 | searching down the map from item i finds an item whose bytes hold the address |
| EepromApp.ItemOfOwns | firmware/ASL_EFX35.X/app/eeprom_app.c:54-101 | every image address belongs to exactly one item |
| EepromApp.ItemBytes | firmware/ASL_EFX35.X/app/eeprom_app.c:120-298 | the bytes of one item, in the image or the EEPROM: as many as the item's size |
| EepromApp.PutWord | firmware/ASL_EFX35.X/app/eeprom_app.c:561 | storing a uint16_t through a pointer cast writes its two bytes in place and keeps the image size |
| EepromApp.SetByte | firmware/ASL_EFX35.X/app/eeprom_app.c:456-532 | the byte setters keep the module state well formed |
| EepromApp.SetWord | firmware/ASL_EFX35.X/app/eeprom_app.c:552-564 | the 16-bit setter keeps the module state well formed |
| EepromApp.SetByteSemantics | firmware/ASL_EFX35.X/app/eeprom_app.c:476-544 | a get after setting an 8-bit item returns the value set; every other item keeps its bytes and its need-to-save flag |
| EepromApp.SetWordSemantics | firmware/ASL_EFX35.X/app/eeprom_app.c:552-576 | a get after setting a 16-bit item returns the value set; every other item keeps its bytes and its flag |
| EepromApp.SetByteChangeOnly | firmware/ASL_EFX35.X/app/eeprom_app.c:461-531 | a byte setter changes the module state exactly when the value differs; a change flags the item, sets the dirty flag and counts one update modulo 256 |
| EepromApp.SetWordChangeOnly | firmware/ASL_EFX35.X/app/eeprom_app.c:557-563 | the same for the 16-bit setter |
| EepromApp.SetByteKeepsInvariants | firmware/ASL_EFX35.X/app/eeprom_app.c:461-531 | a byte setter keeps the invariants: no item is flagged without the dirty flag, and every unflagged item holds the same bytes in RAM and in the EEPROM |
| EepromApp.SetWordKeepsInvariants | firmware/ASL_EFX35.X/app/eeprom_app.c:557-563 | the same for the 16-bit setter |
| EepromApp.FlushMem | firmware/ASL_EFX35.X/app/eeprom_app.c:418-444 | the EEPROM after the flush loop has written the selected items among the first k; its size is kept |
| EepromApp.FlushStepAt | firmware/ASL_EFX35.X/app/eeprom_app.c:420-443 | one pass of the flush loop writes the image bytes of its item when selected, and no other address |
| EepromApp.FlushMemAt | firmware/ASL_EFX35.X/app/eeprom_app.c:418-444 | after the loop, each EEPROM address holds the image byte exactly when its item was written, and its old byte otherwise |
| EepromApp.Selection | firmware/ASL_EFX35.X/app/eeprom_app.c:422 | the items a flush writes: the flagged ones, or all of them when forced |
| EepromApp.FlushState | firmware/ASL_EFX35.X/app/eeprom_app.c:414-448 | the module state and the EEPROM after eepromFlush keep their shapes |
| EepromApp.FlushWritesSelected | firmware/ASL_EFX35.X/app/eeprom_app.c:414-448 | an unforced flush with nothing dirty changes nothing; otherwise it writes every flagged item (all when forced) and only those, clears every flag and the dirty flag, keeps the image and the counter, and leaves the EEPROM beyond the image alone |
| EepromApp.FlushSynchronises | firmware/ASL_EFX35.X/app/eeprom_app.c:414-448 | with the invariants holding, any flush leaves the EEPROM holding exactly the RAM image, and the invariants still hold |
| EepromApp.FlushedByte | firmware/ASL_EFX35.X/app/eeprom_app.c:414-448 | with the invariants holding, each image byte is in the EEPROM after a flush |
| EepromApp.SyncState | firmware/ASL_EFX35.X/app/eeprom_app.c:589-627 | SyncWithEeprom's result and new module state keep their shapes |
| EepromApp.SyncLoads | firmware/ASL_EFX35.X/app/eeprom_app.c:589-627 | a sync happens exactly when byte 0 holds 0xA5; it then loads every item from the EEPROM and clears the flags of items 1 onwards, keeping item 0's flag, the dirty flag and the counter; otherwise nothing changes |
| EepromApp.Defaults | firmware/ASL_EFX35.X/app/eeprom_app.c:637-699 | SetDefaultValues keeps the image size |
| EepromApp.DefaultsValues | firmware/ASL_EFX35.X/app/eeprom_app.c:637-699 | the defaults: marker 0xA5, a 1000 ms long press, only sound enabled, the first feature current, version 6, features2 cleared |
| EepromApp.DefaultAddrs | firmware/ASL_EFX35.X/app/eeprom_app.c:637-699 | the addresses of the items SetDefaultValues assigns |
| EepromApp.DefaultsKeepOthers | firmware/ASL_EFX35.X/app/eeprom_app.c:637-699 | SetDefaultValues leaves every item it does not assign as it was |
| EepromApp.UpgradeFrom3 | firmware/ASL_EFX35.X/app/eeprom_app.c:358-365 | the version-3 step keeps the module state well formed |
| EepromApp.UpgradeFrom4 | firmware/ASL_EFX35.X/app/eeprom_app.c:366-376 | the version-4 step keeps the module state well formed |
| EepromApp.UpgradeFrom5 | firmware/ASL_EFX35.X/app/eeprom_app.c:377-381 | the version-5 step keeps the module state well formed |
| EepromApp.Migrate | firmware/ASL_EFX35.X/app/eeprom_app.c:355-386 | the upgrade chain keeps the module state well formed |
| EepromApp.UpgradeFrom3Value | firmware/ASL_EFX35.X/app/eeprom_app.c:358-365 | the version-3 step sets the centre pad's minimum drive speed to 20 and no other one-byte item |
| EepromApp.UpgradeFrom4Value | firmware/ASL_EFX35.X/app/eeprom_app.c:366-376 | the version-4 step copies the centre pad's minimum drive speed to the left and right pads and changes no other one-byte item |
| EepromApp.UpgradeFrom5Value | firmware/ASL_EFX35.X/app/eeprom_app.c:377-381 | the version-5 step clears features2 and changes no other one-byte item |
| EepromApp.SetByteValue | firmware/ASL_EFX35.X/app/eeprom_app.c:520-544 | after a byte setter, the item set reads the new value and every other one-byte item reads its old value |
| EepromApp.SetWordValue | firmware/ASL_EFX35.X/app/eeprom_app.c:552-576 | after the 16-bit setter, the item set reads the new value and every other 16-bit item its old value |
| EepromApp.SetWordKeepsByte | firmware/ASL_EFX35.X/app/eeprom_app.c:552-564 | the 16-bit setter leaves every one-byte item's value as it was |
| EepromApp.SetByteKeepsWord | firmware/ASL_EFX35.X/app/eeprom_app.c:520-532 | a byte setter leaves every 16-bit item's value as it was |
| EepromApp.MigrateSteps | firmware/ASL_EFX35.X/app/eeprom_app.c:355-386 | an upgrade from version 3, 4 or 5 applies each later step in order: 3 sets the centre speed to 20, 3 and 4 copy it to left and right, 3 to 5 clear features2; other versions keep those items; every upgrade stores version 6 |
| EepromApp.MigrateItem | firmware/ASL_EFX35.X/app/eeprom_app.c:355-386 | one item's value after each step of the chain |
| EepromApp.InitState | firmware/ASL_EFX35.X/app/eeprom_app.c:326-392 | eepromAppInit's result, module state and EEPROM keep their shapes |
| EepromApp.ForcedFlush | firmware/ASL_EFX35.X/app/eeprom_app.c:414-448 | a forced flush writes the whole image, leaves the rest of the EEPROM, and clears every flag |
| EepromApp.InitUnprogrammed | firmware/ASL_EFX35.X/app/eeprom_app.c:336-348 | on an unprogrammed EEPROM start-up reports false and writes the defaults to every item, with no flag set and the counter at 0 |
| EepromApp.InitCurrent | firmware/ASL_EFX35.X/app/eeprom_app.c:339-391 | on an EEPROM at the current version start-up reports true, loads the image and writes nothing |
| EepromApp.InitUpgraded | firmware/ASL_EFX35.X/app/eeprom_app.c:355-388 | on an EEPROM at an older version start-up writes back the whole upgraded image, at version 6 and still marked 0xA5, with no flag set |
| EepromApp.InitEstablishes | firmware/ASL_EFX35.X/app/eeprom_app.c:326-392 | whatever the EEPROM held, start-up reports whether it was programmed and ends with the EEPROM holding exactly the RAM image, marked 0xA5, at version 6, with nothing dirty |
| EepromApp.SetLeavesMarker | firmware/ASL_EFX35.X/app/eeprom_app.c:355-386 | the upgrade chain never touches the marker byte |
| EepromApp.Store.constructor | firmware/ASL_EFX35.X/app/eeprom_app.c:196-300 | the zero-initialised statics: image, flags, dirty flag and counter all 0 |
| EepromApp.Store.GetByte | firmware/ASL_EFX35.X/app/eeprom_app.c:476-544 | the byte getters read the item's byte of the image |
| EepromApp.Store.GetWord | firmware/ASL_EFX35.X/app/eeprom_app.c:572-576 | the 16-bit getter reads the item's two bytes, least significant first |
| EepromApp.Store.SetByteItem | firmware/ASL_EFX35.X/app/eeprom_app.c:456-532 | the byte setters change the module state as SetByte says and never touch the EEPROM |
| EepromApp.Store.SetWordItem | firmware/ASL_EFX35.X/app/eeprom_app.c:552-564 | the 16-bit setter changes the module state as SetWord says and never touches the EEPROM |
| EepromApp.Store.Write16bitVal | firmware/ASL_EFX35.X/app/eeprom_app.c:746-752 | writes the value's two bytes, least significant first, as one buffer write |
| EepromApp.Store.Read8bitVal | firmware/ASL_EFX35.X/app/eeprom_app.c:723-736 | returns the EEPROM byte at the address |
| EepromApp.Store.Read16bitVal | firmware/ASL_EFX35.X/app/eeprom_app.c:762-775 | returns the two EEPROM bytes at the address, least significant first |
| EepromApp.Store.Flush | firmware/ASL_EFX35.X/app/eeprom_app.c:414-448 | the flush loop leaves the module state and the EEPROM as FlushState says |
| EepromApp.Store.Sync | firmware/ASL_EFX35.X/app/eeprom_app.c:589-627 | SyncWithEeprom returns and leaves what SyncState says |
| EepromApp.Store.LoadItems | firmware/ASL_EFX35.X/app/eeprom_app.c:595-619 | the sync loop reads every item after the marker back from the EEPROM and clears its flag, keeping item 0's flag |
| EepromApp.Store.SetDefaultValues | firmware/ASL_EFX35.X/app/eeprom_app.c:637-699 | the direct assignments leave the image Defaults describes and flag nothing |
| EepromApp.Store.Init | firmware/ASL_EFX35.X/app/eeprom_app.c:326-392 | eepromAppInit returns and leaves the module state and the EEPROM InitState describes |
| DacBsp.BitMasksAreShifts | firmware/ASL_EFX35.X/bsp/CCS/dac_bsp.c:36-132 | the twelve masks are exactly `1 << (11 - i)` for the loop passes i = 0 .. 11 |
| DacBsp.MsbFirst | firmware/ASL_EFX35.X/bsp/CCS/dac_bsp.c:130-132 | the data levels of one call: exactly twelve, bit 11 - i of the value in pass i |
| DacBsp.BitsTraceStep | firmware/ASL_EFX35.X/bsp/CCS/dac_bsp.c:130-142 | the pin writes of the first i + 1 loop passes are those of the first i followed by pass i's |
| DacBsp.DacPort.constructor | firmware/ASL_EFX35.X/bsp/CCS/dac_bsp.c:70-75 | the port starts with no pin written |
| DacBsp.DacPort.DataStateSet | firmware/ASL_EFX35.X/bsp/CCS/dac_bsp.c:156-159 | one write of the DAC's data pin at the given level |
| DacBsp.DacPort.ClockStateSet | firmware/ASL_EFX35.X/bsp/CCS/dac_bsp.c:167-170 | one write of the DAC's clock pin at the given level |
| DacBsp.DacPort.LatchStateSet | firmware/ASL_EFX35.X/bsp/CCS/dac_bsp.c:178-188 | one write of the DAC's latch pin, low when active and high when inactive |
| DacBsp.DacPort.Init | firmware/ASL_EFX35.X/bsp/CCS/dac_bsp.c:91-102 | dacBspInit appends: both latches inactive, both clocks high, both data lines low, in that order |
| DacBsp.DacPort.Set | firmware/ASL_EFX35.X/bsp/CCS/dac_bsp.c:126-146 | dacBspSet appends: clock low, the twelve loop passes, latch inactive, clock high |
| DacBsp.DacPort.SendBits | firmware/ASL_EFX35.X/bsp/CCS/dac_bsp.c:130-142 | the loop appends the writes of its twelve passes, in order |
| DacBsp.DacPort.SendBit | firmware/ASL_EFX35.X/bsp/CCS/dac_bsp.c:132-141 | one pass appends: the data bit, clock high, the latch made active on the last pass only, clock low |
| DacBsp.MsbFirstIgnoresHighBits | firmware/ASL_EFX35.X/bsp/CCS/dac_bsp.c:109-132 | bits of the value above bit 11 never reach the data line |
| DacBsp.RunSnoc | firmware/ASL_EFX35.X/bsp/CCS/dac_bsp.c:126-146 | the receiving chip takes the pin writes one at a time, in order |
| DacBsp.RunAppend | firmware/ASL_EFX35.X/bsp/CCS/dac_bsp.c:126-146 | the chip after two runs of writes is the chip after their concatenation |
| DacBsp.ShiftInTracks | firmware/ASL_EFX35.X/bsp/CCS/dac_bsp.c:114 | the chip's shift register always holds the last twelve bits clocked in |
| DacBsp.RunOne | firmware/ASL_EFX35.X/bsp/CCS/dac_bsp.c:156-188 | a single write is received as one step |
| DacBsp.PassReceived | firmware/ASL_EFX35.X/bsp/CCS/dac_bsp.c:132-141 | one loop pass, with the clock low before it, has the data level set before the rising edge, so the chip samples that bit; the clock ends low, and the last pass loads the register into the output |
| DacBsp.BitReceived | firmware/ASL_EFX35.X/bsp/CCS/dac_bsp.c:132-141 | loop pass i makes the chip sample bit 11 - i of the value |
| DacBsp.MsbFirstPrefix | firmware/ASL_EFX35.X/bsp/CCS/dac_bsp.c:130-132 | the first n data levels are the first n - 1 followed by pass n - 1's |
| DacBsp.RunBits | firmware/ASL_EFX35.X/bsp/CCS/dac_bsp.c:130-142 | running the writes of the first n passes is running the passes one after another |
| DacBsp.BitsReceived | firmware/ASL_EFX35.X/bsp/CCS/dac_bsp.c:130-142 | after the first n passes the chip has sampled the first n value bits, most significant first, and has loaded its output only if all twelve were sent |
| DacBsp.BitsStep | firmware/ASL_EFX35.X/bsp/CCS/dac_bsp.c:130-142 | n - 1 passes followed by pass n - 1 give the effect of n passes |
| DacBsp.LastTwelveOfSuffix | firmware/ASL_EFX35.X/bsp/CCS/dac_bsp.c:36-114 | after twelve more bits the shift register holds exactly those twelve |
| DacBsp.SetSplit | firmware/ASL_EFX35.X/bsp/CCS/dac_bsp.c:126-146 | a dacBspSet call is received as: clock low, the twelve passes, latch inactive, clock high |
| DacBsp.SetCombine | firmware/ASL_EFX35.X/bsp/CCS/dac_bsp.c:126-146 | those steps load the twelve value bits into the output exactly once |
| DacBsp.SetLoadsValue | firmware/ASL_EFX35.X/bsp/CCS/dac_bsp.c:126-146 | one dacBspSet call, whatever the lines were before: the chip samples the twelve value bits, most significant first; the latch is asserted once, in the twelfth pass after its rising edge, and loads the 12-bit value into the output; the call ends with the clock high and the latch inactive |
| DacBsp.SetTouchesOnlyItsDac | firmware/ASL_EFX35.X/bsp/CCS/dac_bsp.c:70-146 | dacBspSet drives only the three pins of the DAC it was given |
| DacBsp.BitsOnlyItsDac | firmware/ASL_EFX35.X/bsp/CCS/dac_bsp.c:130-142 | the loop drives only the three pins of its DAC |
| DacBsp.InitLeavesIdleLines | firmware/ASL_EFX35.X/bsp/CCS/dac_bsp.c:91-145 | dacBspInit leaves each chip with its clock high and its latch inactive, the state every dacBspSet call ends in, and loads neither chip |
| GenOutCtrl.FirstEnd | firmware/ASL_EFX35.X/drivers/inc/general_output_ctrl.h:62-73 | the position of the first step whose on and off times are both 0xFFFF: it is within the list, that step ends the list, and no earlier step does |
| GenOutCtrl.Lookup | firmware/ASL_EFX35.X/drivers/general_output_ctrl.c:1127-1139 | a position is found iff the state is defined; it then holds the state and no earlier entry does (the first match of the search) |
| GenOutCtrl.EndOfList | firmware/ASL_EFX35.X/drivers/general_output_ctrl.c:1084-1096 | true iff there is a current state and the step index is at its end step |
| GenOutCtrl.AdvanceStep | firmware/ASL_EFX35.X/drivers/general_output_ctrl.c:1019-1025 | moving to the next step changes only the index: one on, or back to 0 after the last step before the end step, so the index never lands on the end step |
| GenOutCtrl.NextSubstep | firmware/ASL_EFX35.X/drivers/general_output_ctrl.c:1008-1073 | the next substep keeps the state list, the current and test states, the timing control, the time and the repeat count |
| GenOutCtrl.SubstepAfterOn | firmware/ASL_EFX35.X/drivers/general_output_ctrl.c:1010-1042 | after an on phase a step with an off phase only turns the output off; the one-shot flag changes only for a one-shot state, which then leaves the output as it was |
| GenOutCtrl.SubstepAfterOff | firmware/ASL_EFX35.X/drivers/general_output_ctrl.c:1043-1070 | after an off phase the index goes back to 0 exactly at the end step, and the one-shot flag changes only there for a one-shot state; list, current state and timing control are kept |
| GenOutCtrl.Tick | firmware/ASL_EFX35.X/drivers/general_output_ctrl.c:419-473 | a tick keeps the timing control, the test mode and the test state |
| GenOutCtrl.Started | firmware/ASL_EFX35.X/drivers/general_output_ctrl.c:519-539 | Start succeeds iff CanStart holds; on success the controller is under timing control with list and current state kept, and on failure nothing changes |
| GenOutCtrl.Stopped | firmware/ASL_EFX35.X/drivers/general_output_ctrl.c:548-561 | after Stop the controller is not under timing control, with list, current state, test state and test mode kept |
| GenOutCtrl.Switched | firmware/ASL_EFX35.X/drivers/general_output_ctrl.c:592-644 | StateSet keeps the list and the test mode and never starts timing control; the current state changes only outside test mode, to the requested one |
| GenOutCtrl.TestModeSwitched | firmware/ASL_EFX35.X/drivers/general_output_ctrl.c:962-991 | TestModeSet leaves the mode as asked, with the list and the timing control kept |
| GenOutCtrl.OutputCtrlrIsActive | firmware/ASL_EFX35.X/drivers/general_output_ctrl.c:671-683 | a controller reported active is under timing control, not completed, and at a step before its end step |
| GenOutCtrl.Added | firmware/ASL_EFX35.X/drivers/general_output_ctrl.c:356-381 | AddState grows the list by one exactly when it succeeds; there is a current state afterwards iff there was one or the add succeeded; the timing control and index are kept |
| GenOutCtrl.Manual | firmware/ASL_EFX35.X/drivers/general_output_ctrl.c:808-863 | manual control succeeds iff the controller is not under timing control, and then drives the line to the level asked; the list, current state and timing control are kept |
| GenOutCtrl.InitialInv | firmware/ASL_EFX35.X/drivers/general_output_ctrl.c:1146-1160 | a controller initialised with no states, inactive and output off satisfies the controller invariant |
| GenOutCtrl.NextSubstepInv | firmware/ASL_EFX35.X/drivers/general_output_ctrl.c:1008-1073 | the next substep of a controller under timing control keeps the invariant: the index stays before the end step while the output is on, and the line follows the recorded output |
| GenOutCtrl.SubstepAfterOnInv | firmware/ASL_EFX35.X/drivers/general_output_ctrl.c:1010-1042 | the substep after an on phase keeps the invariant and the timing control |
| GenOutCtrl.SubstepAfterOffInv | firmware/ASL_EFX35.X/drivers/general_output_ctrl.c:1043-1070 | the substep after an off phase keeps the invariant and the timing control |
| GenOutCtrl.TickInv | firmware/ASL_EFX35.X/drivers/general_output_ctrl.c:419-473 | a tick keeps the controller invariant |
| GenOutCtrl.TickOnPhaseInv | firmware/ASL_EFX35.X/drivers/general_output_ctrl.c:436-467 | the end of an on phase keeps the invariant |
| GenOutCtrl.TickOffPhaseInv | firmware/ASL_EFX35.X/drivers/general_output_ctrl.c:445-467 | the end of an off phase, with the repeat count and index update, keeps the invariant |
| GenOutCtrl.StartInv | firmware/ASL_EFX35.X/drivers/general_output_ctrl.c:519-539 | Start keeps the invariant |
| GenOutCtrl.StopInv | firmware/ASL_EFX35.X/drivers/general_output_ctrl.c:548-561 | Stop keeps the invariant |
| GenOutCtrl.StateSetInv | firmware/ASL_EFX35.X/drivers/general_output_ctrl.c:592-644 | StateSet keeps the invariant |
| GenOutCtrl.TestModeSetInv | firmware/ASL_EFX35.X/drivers/general_output_ctrl.c:962-991 | TestModeSet keeps the invariant |
| GenOutCtrl.AddStateInv | firmware/ASL_EFX35.X/drivers/general_output_ctrl.c:356-381 | AddState of a terminated step list keeps the invariant: at most GEN_OUT_CTRL_STATE_MAX states, each defined once |
| GenOutCtrl.ManualInv | firmware/ASL_EFX35.X/drivers/general_output_ctrl.c:808-863 | manual control keeps the invariant |
| GenOutCtrl.AddStateBehaviour | firmware/ASL_EFX35.X/drivers/general_output_ctrl.c:356-381 | AddState fails with no change iff the state is already defined or the list is full; otherwise it appends exactly that state, which is then defined, and the first state added becomes both the current state and the one test mode returns to; nothing else changes |
| GenOutCtrl.TickIdle | firmware/ASL_EFX35.X/drivers/general_output_ctrl.c:425 | a tick of a controller not under timing control, or one whose one-shot has completed, changes nothing |
| GenOutCtrl.TickForeverPhase | firmware/ASL_EFX35.X/drivers/general_output_ctrl.c:434-446 | in a phase whose time is 0xFFFF the tick only accumulates time modulo 2^16 and never ends the phase |
| GenOutCtrl.TickCountsRuns | firmware/ASL_EFX35.X/drivers/general_output_ctrl.c:445-461 | the end of an off phase restarts the time and counts one more run (8-bit); below the repeat count the index stays and the output follows the step's on time; at the count the count restarts and the index moves on, back to 0 after the last step, where a one-shot state completes |
| GenOutCtrl.StartBehaviour | firmware/ASL_EFX35.X/drivers/general_output_ctrl.c:519-539 | Start succeeds iff the controller was not under timing control and not at the end of its list; on success it is under timing control on the same state with the output set by the first step's on time; on failure nothing changes |
| GenOutCtrl.StopBehaviour | firmware/ASL_EFX35.X/drivers/general_output_ctrl.c:548-561 | after Stop the controller is not under timing control, with index, time, one-shot flag and repeat count reset and the output recorded off; a running line is driven off; the current state, state list and test mode are kept |
| GenOutCtrl.StateSetBehaviour | firmware/ASL_EFX35.X/drivers/general_output_ctrl.c:592-644 | without a defined state of at least the current priority that is another state (or a completed one-shot) nothing changes; in test mode only the state to return to is recorded; otherwise the state becomes current from step 0, and timing control stays on iff it was on and the new state has a step to run, the output then following that step's on time |
| GenOutCtrl.TestModeRoundTrip | firmware/ASL_EFX35.X/drivers/general_output_ctrl.c:962-991 | setting the mode already in force changes nothing; entering test mode makes the test state current, remembers the current state and keeps the timing control; leaving again restores the state and the timing control, with the control data reset |
| GenOutCtrl.ManualBehaviour | firmware/ASL_EFX35.X/drivers/general_output_ctrl.c:808-863 | SetActive, SetInactive and Toggle succeed iff the controller is not under timing control, and then only drive the line |
| GenOutCtrl.TickKeepsCurr | firmware/ASL_EFX35.X/drivers/general_output_ctrl.c:419-473 | timing never changes the state list or the current state |
| GenOutCtrl.SwitchedStartedReady | firmware/ASL_EFX35.X/drivers/general_output_ctrl.c:519-644 | StateSet and then Start keep a controller with a current state valid |
| GenOutCtrl.Served | firmware/ASL_EFX35.X/drivers/general_output_ctrl.c:519-644 | the request service (StateSet then Start) maps a ready controller to a ready one |
| GenOutCtrl.OutputCtrlModule.constructor | firmware/ASL_EFX35.X/drivers/general_output_ctrl.c:1146-1160 | every one of the five controllers starts with no states, inactive and output off, and the bank is valid |
| GenOutCtrl.OutputCtrlModule.IsStateDefined | firmware/ASL_EFX35.X/drivers/general_output_ctrl.c:1106-1117 | the linear search answers true iff the state is in the controller's list |
| GenOutCtrl.OutputCtrlModule.StateControlObjectGet | firmware/ASL_EFX35.X/drivers/general_output_ctrl.c:1127-1139 | the linear search answers the first position of the state, none when it is absent |
| GenOutCtrl.OutputCtrlModule.ResetControlData | firmware/ASL_EFX35.X/drivers/general_output_ctrl.c:1171-1186 | only this controller changes: index, time, one-shot flag and count reset, and an inactive controller has its output turned off |
| GenOutCtrl.OutputCtrlModule.SetOutput | firmware/ASL_EFX35.X/drivers/general_output_ctrl.c:1014-1067 | only this controller changes: its recorded output and its line both take the level |
| GenOutCtrl.OutputCtrlModule.NextControlSubstep | firmware/ASL_EFX35.X/drivers/general_output_ctrl.c:1008-1073 | only this controller changes, to its next substep |
| GenOutCtrl.OutputCtrlModule.SubstepAfterOnPhase | firmware/ASL_EFX35.X/drivers/general_output_ctrl.c:1010-1042 | only this controller changes: off if the step has an off phase, else on to the next step, where a one-shot completes and any other state drives the line by the new step's on time |
| GenOutCtrl.OutputCtrlModule.AdvanceStepAt | firmware/ASL_EFX35.X/drivers/general_output_ctrl.c:1019-1025 | only this controller changes, its index moving to the next step and wrapping past the end step |
| GenOutCtrl.OutputCtrlModule.SubstepAfterOffPhase | firmware/ASL_EFX35.X/drivers/general_output_ctrl.c:1043-1070 | only this controller changes: at the end step the list restarts and a one-shot completes; a running controller then drives the line by the step's on time |
| GenOutCtrl.OutputCtrlModule.AddState | firmware/ASL_EFX35.X/drivers/general_output_ctrl.c:356-381 | the bank stays valid, and the result and the new controller are those of AddStateBehaviour; other controllers are untouched |
| GenOutCtrl.OutputCtrlModule.TickUpdate | firmware/ASL_EFX35.X/drivers/general_output_ctrl.c:419-473 | the bank stays valid, the result is true, and only this controller changes, as a tick does |
| GenOutCtrl.OutputCtrlModule.TickRunning | firmware/ASL_EFX35.X/drivers/general_output_ctrl.c:427-467 | for a running controller, only it changes, as a tick does |
| GenOutCtrl.OutputCtrlModule.EndOnPhase | firmware/ASL_EFX35.X/drivers/general_output_ctrl.c:441-467 | the time restarts and the next substep follows; only this controller changes |
| GenOutCtrl.OutputCtrlModule.EndOffPhase | firmware/ASL_EFX35.X/drivers/general_output_ctrl.c:448-467 | the time restarts, the step has run once more (8-bit), the index moves on at the repeat count with the count reset, and the next substep follows |
| GenOutCtrl.OutputCtrlModule.Start | firmware/ASL_EFX35.X/drivers/general_output_ctrl.c:519-539 | the bank stays valid; the result is true iff the controller could start, and only it changes |
| GenOutCtrl.OutputCtrlModule.Stop | firmware/ASL_EFX35.X/drivers/general_output_ctrl.c:548-561 | the bank stays valid, the result is true, only this controller changes, as StopBehaviour states |
| GenOutCtrl.OutputCtrlModule.StateSet | firmware/ASL_EFX35.X/drivers/general_output_ctrl.c:592-644 | the bank stays valid, the result is true, only this controller changes, as StateSetBehaviour states |
| GenOutCtrl.OutputCtrlModule.SwitchTo | firmware/ASL_EFX35.X/drivers/general_output_ctrl.c:613-636 | timing control pauses, the data resets and the new state becomes current; a running controller drives the line off at an end step and otherwise resumes with the next substep |
| GenOutCtrl.OutputCtrlModule.TestModeSet | firmware/ASL_EFX35.X/drivers/general_output_ctrl.c:962-991 | the bank stays valid, the result is true, only this controller changes, as TestModeRoundTrip states |
| GenOutCtrl.OutputCtrlModule.TestModeSwitch | firmware/ASL_EFX35.X/drivers/general_output_ctrl.c:965-988 | the mode flips, the data resets, the real and test state pointers swap roles and timing control is restored to what it was |
| GenOutCtrl.OutputCtrlModule.SetLevel | firmware/ASL_EFX35.X/drivers/general_output_ctrl.c:808-863 | the bank stays valid and the result and new controller are those of ManualBehaviour |
| GenOutCtrl.OutputCtrlModule.TickUpdateAll | firmware/ASL_EFX35.X/drivers/general_output_ctrl.c:393-406 | every controller receives one tick of the same length; the result is true |
| GenOutCtrl.OutputCtrlModule.StartAll | firmware/ASL_EFX35.X/drivers/general_output_ctrl.c:478-491 | every controller is started; the result is true iff every one of them could start |
| GenOutCtrl.OutputCtrlModule.StopAll | firmware/ASL_EFX35.X/drivers/general_output_ctrl.c:496-509 | every controller is stopped; the result is true |
| GenOutCtrl.OutputCtrlModule.StateSetAll | firmware/ASL_EFX35.X/drivers/general_output_ctrl.c:566-579 | every controller is asked for the same state; the result is true |
| GenOutCtrl.OutputCtrlModule.TestModeSetAll | firmware/ASL_EFX35.X/drivers/general_output_ctrl.c:936-948 | every controller is put into (or out of) test mode; the result is true |
| GenOutCtrl.OutputCtrlModule.AtLeastOneOutputCtrlrIsActive | firmware/ASL_EFX35.X/drivers/general_output_ctrl.c:651-682 | true iff some controller is running with a current step whose off time is not 0xFFFF |
| GenOutCtrlApp.Next | firmware/ASL_EFX35.X/app/general_output_ctrl_app.c:302-404 | the position after i is (i + 1) mod 3: the last slot wraps to the first |
| GenOutCtrlApp.WindowSnoc | firmware/ASL_EFX35.X/app/general_output_ctrl_app.c:106-380 | the pending requests of n + 1 slots from the head are those of n slots followed by the request stored n slots past the head |
| GenOutCtrlApp.WindowFrame | firmware/ASL_EFX35.X/app/general_output_ctrl_app.c:294-302 | writing a slot outside the pending window leaves the pending requests as they were |
| GenOutCtrlApp.WindowPush | firmware/ASL_EFX35.X/app/general_output_ctrl_app.c:294-325 | storing a request at the tail of a queue that is not full appends it to the pending requests, oldest first |
| GenOutCtrlApp.WindowAddressed | firmware/ASL_EFX35.X/app/general_output_ctrl_app.c:294-325 | the pending requests name existing controllers (or all of them) whenever every slot does |
| GenOutCtrlApp.AllReadyAt | firmware/ASL_EFX35.X/drivers/general_output_ctrl.c:182 | every controller of a ready bank is ready |
| GenOutCtrlApp.AllReadyIntro | firmware/ASL_EFX35.X/drivers/general_output_ctrl.c:182 | a bank whose every controller is ready is ready |
| GenOutCtrlApp.AllReadyUpdate | firmware/ASL_EFX35.X/drivers/general_output_ctrl.c:182 | replacing one controller of a ready bank by a ready one keeps the bank ready |
| GenOutCtrlApp.SwitchedAll | firmware/ASL_EFX35.X/drivers/general_output_ctrl.c:566-579 | StateSetAll keeps the size of the bank and every controller ready |
| GenOutCtrlApp.StartedAll | firmware/ASL_EFX35.X/drivers/general_output_ctrl.c:478-491 | StartAll keeps the size of the bank and every controller ready |
| GenOutCtrlApp.TickedAll | firmware/ASL_EFX35.X/drivers/general_output_ctrl.c:393-406 | TickUpdateAll keeps the size of the bank and every controller ready |
| GenOutCtrlApp.SwitchedAllAt | firmware/ASL_EFX35.X/drivers/general_output_ctrl.c:566-579 | controller i of the bank after StateSetAll is controller i after StateSet |
| GenOutCtrlApp.StartedAllAt | firmware/ASL_EFX35.X/drivers/general_output_ctrl.c:478-491 | controller i of the bank after StartAll is controller i after Start |
| GenOutCtrlApp.TickedAllAt | firmware/ASL_EFX35.X/drivers/general_output_ctrl.c:393-406 | controller i of the bank after TickUpdateAll is controller i after one tick |
| GenOutCtrlApp.TickReady | firmware/ASL_EFX35.X/drivers/general_output_ctrl.c:419-473 | a tick keeps a controller ready and never changes its current state |
| GenOutCtrlApp.Apply | firmware/ASL_EFX35.X/app/general_output_ctrl_app.c:477-489 | serving any request that names an existing controller, or all of them, keeps the bank's five controllers ready for the next request |
| GenOutCtrlApp.ServedAt | firmware/ASL_EFX35.X/app/general_output_ctrl_app.c:486-487 | StateSet then Start on one controller keeps the bank's size and every controller ready |
| GenOutCtrlApp.ServedAtIs | firmware/ASL_EFX35.X/app/general_output_ctrl_app.c:486-487 | serving controller id replaces it by itself after StateSet then Start and leaves every other controller as it was |
| GenOutCtrlApp.ApplySingleOnlyTarget | firmware/ASL_EFX35.X/app/general_output_ctrl_app.c:484-488 | a request for one controller leaves every other controller unchanged |
| GenOutCtrlApp.ApplyAll | firmware/ASL_EFX35.X/app/general_output_ctrl_app.c:374-405 | serving the requests one after another, oldest first, keeps the bank ready |
| GenOutCtrlApp.ApplyAllSnoc | firmware/ASL_EFX35.X/app/general_output_ctrl_app.c:374-405 | serving one more request after a sequence of them serves the longer sequence: the newest request is applied last |
| GenOutCtrlApp.Serve | firmware/ASL_EFX35.X/app/general_output_ctrl_app.c:477-489 | the bank becomes the one Apply gives for the request |
| GenOutCtrlApp.ServeAll | firmware/ASL_EFX35.X/app/general_output_ctrl_app.c:479-483 | the bank becomes StateSetAll of it followed by StartAll |
| GenOutCtrlApp.SwitchBank | firmware/ASL_EFX35.X/app/general_output_ctrl_app.c:481 | the bank becomes StateSetAll of it and stays ready |
| GenOutCtrlApp.StartBank | firmware/ASL_EFX35.X/app/general_output_ctrl_app.c:482 | the bank becomes StartAll of it |
| GenOutCtrlApp.ServeOne | firmware/ASL_EFX35.X/app/general_output_ctrl_app.c:486-487 | the bank becomes the one where only controller id has been served |
| GenOutCtrlApp.RequestQueue.constructor | firmware/ASL_EFX35.X/app/general_output_ctrl_app.c:106-109 | the queue starts empty with head and tail at the first slot |
| GenOutCtrlApp.RequestQueue.Enqueue | firmware/ASL_EFX35.X/app/general_output_ctrl_app.c:294-329 | with a free slot the request is written at the old tail, appended to the pending requests, the count goes up and the tail wraps; a full queue changes nothing; the ring invariant tail = (head + slots) mod 3 is kept |
| GenOutCtrlApp.RequestQueue.SetStateAll | firmware/ASL_EFX35.X/app/general_output_ctrl_app.c:292-307 | a set-all request carrying GEN_OUT_CTRL_ID_MAX is appended when a slot is free; a full queue is unchanged |
| GenOutCtrlApp.RequestQueue.SetState | firmware/ASL_EFX35.X/app/general_output_ctrl_app.c:315-330 | a request for the given controller is appended when a slot is free; a full queue is unchanged |
| GenOutCtrlApp.RequestQueue.Drain | firmware/ASL_EFX35.X/app/general_output_ctrl_app.c:374-405 | the queue ends empty with head = tail and the buffer untouched, and the bank is the one obtained by serving the pending requests in FIFO order |
| GenOutCtrlApp.RequestQueue.Emptied | firmware/ASL_EFX35.X/app/general_output_ctrl_app.c:106-109 | an empty queue has its tail at its head |
| GenOutCtrlApp.RequestQueue.ServeHead | firmware/ASL_EFX35.X/app/general_output_ctrl_app.c:376-404 | the oldest request is served and dropped from the pending requests, with one slot less in use |
| GenOutCtrlApp.RequestQueue.ControlCycle | firmware/ASL_EFX35.X/app/general_output_ctrl_app.c:387-422 | a pass of the output-control task serves every pending request in order and then advances every controller by the elapsed time, leaving the queue empty |
| GenOutCtrlApp.NeedSendEvent | firmware/ASL_EFX35.X/app/general_output_ctrl_app.c:338-341 | true iff no controller has a running step whose off time is not 0xFFFF |
| HeadArray.Updated | firmware/ASL_EFX35.X/app/head_array.c:677-685 | every pad's current state becomes the one its input reads, and its last reported state is kept |
| HeadArray.PadIsConnected | firmware/ASL_EFX35.X/app/head_array.c:385-390 | every pad reports connected: the connection test is not implemented |
| HeadArray.InNeutralAsWritten | firmware/ASL_EFX35.X/app/head_array.c:765-774 | InNeutralState as written: true iff every pad reads pressed |
| HeadArray.InNeutral | firmware/ASL_EFX35.X/app/head_array.c:758-774 | the intended neutral test: true iff no pad reads pressed (the corrected half of the finding on InNeutralState) |
| HeadArray.NeutralTestInvertedAsWritten | firmware/ASL_EFX35.X/app/head_array.c:765-774 | with all pads released the as-written test fails and the intended one passes; with all pads pressed the reverse |
| HeadArray.IsNeutral | firmware/ASL_EFX35.X/app/head_array.c:765-774 | a neutral test passes iff every pad is at the level it takes as neutral: all pressed for the test as written, all released for the intended one |
| HeadArray.Edges | firmware/ASL_EFX35.X/app/head_array.c:488-512 | a pass reports at most one change per pad, so at most three requests |
| HeadArray.Sync | firmware/ASL_EFX35.X/app/head_array.c:787-862 | after the sync the feature is driving and the pads are untouched; a neutral wait is pending iff one was already or the feature changed; from the driving feature nothing changes and no wake-up is asked for |
| HeadArray.NeutralPass | firmware/ASL_EFX35.X/app/head_array.c:453-480 | a pass waiting for neutral reports nothing and leaves the pads, feature and off flag alone; pads out of neutral for the pass's test flag the failure, keep the wait and restart the stopwatch at now; the wait ends only on pads in neutral, clearing the flag and stopping the stopwatch |
| HeadArray.DrivePass | firmware/ASL_EFX35.X/app/head_array.c:481-539 | a normal pass leaves the feature driving and every pad reported, and leaves the neutral flag and stopwatch alone |
| HeadArray.Reported | firmware/ASL_EFX35.X/app/head_array.c:494-512 | after reporting, every pad's last reported state is its current one |
| HeadArray.LedState | firmware/ASL_EFX35.X/app/head_array.c:632-655 | the LED request is the Bluetooth-output state exactly for the Bluetooth feature, and the no-output state otherwise |
| HeadArray.SetOutputs | firmware/ASL_EFX35.X/app/head_array.c:570-623 | the outputs stay on exactly for an active device out of calibration in the Bluetooth feature, and only then are the pads mirrored |
| HeadArray.Pass | firmware/ASL_EFX35.X/app/head_array.c:447-544 | a pass keeps three pads, each with the state it reads; a pass spent waiting for neutral reports nothing, sends no wake-up and keeps the feature |
| HeadArray.EdgesReportChanges | firmware/ASL_EFX35.X/app/head_array.c:488-512 | each pad that went from released to pressed is reported with its active state, each that went the other way with its inactive state, and no pad that kept its state is reported |
| HeadArray.SteadyPadsAreQuiet | firmware/ASL_EFX35.X/app/head_array.c:488-685 | once reported, pads that read the same again cause no request |
| HeadArray.DrivePassFromDriving | firmware/ASL_EFX35.X/app/head_array.c:481-541 | in the driving feature a normal pass keeps the feature and starts no wait, sends no wake-up, queues exactly the pads' change requests, leaves every pad reported, and turns the off flag over, switching the mirroring off on every other pass |
| HeadArray.FeatureChangeStartsNeutralWait | firmware/ASL_EFX35.X/app/head_array.c:787-813 | when the stored feature differs from the current one, the sync adopts driving, switches the mirroring off, queues the no-output LED request, passes on the wake-up answer and starts a neutral wait |
| HeadArray.NeutralWait | firmware/ASL_EFX35.X/app/head_array.c:453-480 | for either test, while waiting for neutral nothing is queued or woken; pads not all at the test's neutral level (as written: not all pressed) restart the stopwatch at now and flag the test failed; in neutral with the stopwatch running the wait ends iff 750 ms have elapsed, clearing the flag and stopping the stopwatch; a stopped stopwatch is started at now and the wait goes on |
| HeadArray.NeutralWaitEnds | firmware/ASL_EFX35.X/app/head_array.c:453-480 | for either test, two passes with the pads at its neutral level (as written all pressed, as intended all released), 750 ms or more apart and less than one counter roll-over, end a wait begun on a stopped stopwatch with the test passed |
| HeadArray.NeutralWaitNeverEndsAsWritten | firmware/ASL_EFX35.X/app/head_array.c:466-479 | as written, over any run of passes in each of which some pad is released, the wait never ends: it stays pending with the test flagged failed and nothing reported (see Findings) |
| HeadArray.HeadArrayTask.constructor | firmware/ASL_EFX35.X/app/head_array.c:94-135 | the statics start zeroed: pads released, feature driving, no wait, no failure, outputs not off, and the neutral stopwatch as given |
| HeadArray.HeadArrayTask.Init | firmware/ASL_EFX35.X/app/head_array.c:167-188 | every pad is cleared, then the head-array task syncs with the stored settings |
| HeadArray.HeadArrayTask.ClearPads | firmware/ASL_EFX35.X/app/head_array.c:170-177 | every pad's current and previous state is false |
| HeadArray.HeadArrayTask.DigitalInputValue | firmware/ASL_EFX35.X/app/head_array.c:346-349 | the answer is the pad's state read on the last pass |
| HeadArray.HeadArrayTask.NeutralTestFail | firmware/ASL_EFX35.X/app/head_array.c:398-401 | the answer is the neutral-test-failed flag |
| HeadArray.HeadArrayTask.SetNeedForNeutralTest | firmware/ASL_EFX35.X/app/head_array.c:409-412 | only the wait-for-neutral flag changes, to true |
| HeadArray.HeadArrayTask.SendStateRequestToLedControlModule | firmware/ASL_EFX35.X/app/head_array.c:632-655 | the LED state for the current feature is queued and the wake-up answer is passed on; nothing else changes |
| HeadArray.HeadArrayTask.SyncWithEeprom | firmware/ASL_EFX35.X/app/head_array.c:787-862 | the state becomes the one Sync gives: unchanged with no wake-up when the feature is already driving |
| HeadArray.HeadArrayTask.TaskOpen | firmware/ASL_EFX35.X/app/head_array.c:429-439 | the off flag is cleared, the LED state is queued and a wake-up is sent when one is needed |
| HeadArray.HeadArrayTask.UpdatePadStatus | firmware/ASL_EFX35.X/app/head_array.c:677-685 | every pad's current state is read from its input, the loop leaving each previous state as it was |
| HeadArray.HeadArrayTask.TaskPass | firmware/ASL_EFX35.X/app/head_array.c:447-544 | one pass reads the pads and then either waits for neutral or runs a normal pass, as Pass gives with the neutral test as written |
| HeadArray.HeadArrayTask.WaitForNeutralStep | firmware/ASL_EFX35.X/app/head_array.c:453-480 | the neutral-wait half of a pass, calling InNeutralState as written, as NeutralPass gives |
| HeadArray.HeadArrayTask.InNeutralState | firmware/ASL_EFX35.X/app/head_array.c:765-774 | the loop answers InNeutralAsWritten of the pads: true iff every pad reads pressed |
| HeadArray.HeadArrayTask.DriveStep | firmware/ASL_EFX35.X/app/head_array.c:481-539 | the normal half of a pass: sync, wake-up, pad reports, then the outputs' power-off handling |
| HeadArray.HeadArrayTask.OutputsStep | firmware/ASL_EFX35.X/app/head_array.c:525-538 | outputs that are to be turned off and are not yet off are marked off and the mirroring disabled; outputs already off are marked on again; otherwise nothing changes |
| HeadArray.HeadArrayTask.ReportPads | firmware/ASL_EFX35.X/app/head_array.c:488-512 | the pads' changes are queued centre, left, right, and every pad is left reported |
| HeadArray.HeadArrayTask.ReportPad | firmware/ASL_EFX35.X/app/head_array.c:488-494 | a changed pad queues its active or inactive request and records its state as reported; an unchanged pad changes nothing |
| Beeper.RnetSeatingOverrunsItsTable | firmware/ASL_EFX35.X/app/beeper.c:513-579 | the RNet-seating announcement is counted as five cycles but looked up in a four-entry table; every other pattern gets the table the corrected lookup gives (see Findings) |
| Beeper.PatternTableAsWritten | firmware/ASL_EFX35.X/app/beeper.c:475-593 | every pattern is given a table of at least one entry, and every pattern but the RNet-seating announcement a table covering the cycles it is counted as |
| Beeper.TableCoversCycles | firmware/ASL_EFX35.X/app/beeper.c:475-593 | with the corrected lookup every pattern's table has an entry for each cycle it plays, and at least one (a pattern counted as none still plays its first cycle); every cycle sounds for some time |
| Beeper.CanRun | firmware/ASL_EFX35.X/app/beeper.c:450-465 | the intended test: a request may start iff nothing is running or its listed priority is above the running pattern's |
| Beeper.CanRunAsWritten | firmware/ASL_EFX35.X/app/beeper.c:455-465 | as written a pattern may start iff nothing runs, or its bool-stored priority is 1 where the other's is 0 |
| Beeper.PriorityIsIgnoredAsWritten | firmware/ASL_EFX35.X/app/beeper.c:455-465 | as written the request is compared with itself, so it can start only while nothing runs; and with the bool table the Bluetooth announcement cannot even beat the short-press beep, which the intended test lets it do (see Findings) |
| Beeper.Stop | firmware/ASL_EFX35.X/app/beeper.c:299-447 | after a stop nothing runs, the buzzer is off, the stopwatch is stopped, both patterns are end-of-list, and the waiting caller is signalled exactly when it asked to be, its flag then cleared |
| Beeper.StartPattern | firmware/ASL_EFX35.X/app/beeper.c:601-611 | a start runs the session pattern from cycle 0 with the buzzer on and the stopwatch started now |
| Beeper.TakeOverAsWritten | firmware/ASL_EFX35.X/app/beeper.c:309-321 | the take-over as written ends running from cycle 0 with the buzzer on and the stopwatch started now, the current pattern being the end-of-list pattern when a pattern was running and the request otherwise; the caller is signalled iff a running pattern was stopped for a blocked caller |
| Beeper.TakeOver | firmware/ASL_EFX35.X/app/beeper.c:309-321 | the corrected take-over runs the request from cycle 0 with the buzzer on and the stopwatch started now; the caller is signalled iff a running pattern was stopped for a blocked caller |
| Beeper.ArbitrateAsWritten | firmware/ASL_EFX35.X/app/beeper.c:294-325 | the first half of a pass as written leaves the session pattern equal to the current one, changes nothing when no new request was made, and stops a running pattern on an end-of-list request |
| Beeper.Arbitrate | firmware/ASL_EFX35.X/app/beeper.c:294-325 | the corrected first half gives the same three guarantees as the one as written |
| Beeper.Advance | firmware/ASL_EFX35.X/app/beeper.c:327-380 | the cycle timing changes nothing while nothing runs, keeps the patterns of a pattern that goes on running, and a pattern it ends is left end-of-list with the buzzer off |
| Beeper.PassAsWritten | firmware/ASL_EFX35.X/app/beeper.c:282-381 | a pass as written leaves the session pattern equal to the current one |
| Beeper.Pass | firmware/ASL_EFX35.X/app/beeper.c:282-381 | a corrected pass leaves the session pattern equal to the current one |
| Beeper.TakeOverLosesRequestAsWritten | firmware/ASL_EFX35.X/app/beeper.c:307-321 | as written a take-over of a running pattern starts the end-of-list pattern and leaves the beeper running with no pattern; the corrected branch runs the request (see Findings) |
| Beeper.RequestDroppedWhileRunningAsWritten | firmware/ASL_EFX35.X/app/beeper.c:294-325 | as written a new request made while a pattern runs is dropped whatever its priority, while the corrected first half starts the Bluetooth announcement over a running short-press beep |
| Beeper.ArbitrateKeepsInv | firmware/ASL_EFX35.X/app/beeper.c:294-325 | the corrected first half of a pass keeps the invariant (running iff a pattern is current, the cycle within its table, the buzzer only while running) and leaves the session pattern equal to the current one |
| Beeper.AdvanceKeepsInv | firmware/ASL_EFX35.X/app/beeper.c:327-380 | the cycle timing keeps the invariant |
| Beeper.PassKeepsInv | firmware/ASL_EFX35.X/app/beeper.c:282-381 | every corrected pass keeps the invariant and leaves the session pattern equal to the current one |
| Beeper.ArbitrateAsWrittenKeepsInv | firmware/ASL_EFX35.X/app/beeper.c:294-325 | the first half of a pass as written keeps the invariant and leaves the session pattern equal to the current one |
| Beeper.PassAsWrittenKeepsInv | firmware/ASL_EFX35.X/app/beeper.c:282-381 | every pass of the beeper task as written keeps the invariant and leaves the session pattern equal to the current one |
| Beeper.ArbitrationAgreesWhenIdle | firmware/ASL_EFX35.X/app/beeper.c:294-325 | while nothing runs, the first half of a pass and the whole pass as written are the corrected ones: the two differ only on requests made while a pattern plays |
| Beeper.PriorityDecidesTakeOver | firmware/ASL_EFX35.X/app/beeper.c:307-324 | with the corrected test, a request of higher priority than the running pattern takes over from cycle 0 with the buzzer on and the stopwatch started now; any other request is dropped and the running pattern goes on unchanged |
| Beeper.EndOfListStops | firmware/ASL_EFX35.X/app/beeper.c:296-305 | a request for the end-of-list pattern stops the running pattern and silences the buzzer in that pass, signalling the caller exactly when it asked |
| Beeper.CycleTiming | firmware/ASL_EFX35.X/app/beeper.c:327-380 | within the on time the buzzer keeps its state and the beeper task waits out the rest of it; in the off time the buzzer is off and the beeper task waits the rest; at the end of a cycle the next starts with the buzzer on, the stopwatch zeroed and the wait set to its on time, or after the last the pattern stops |
| Beeper.BeeperTask.constructor | firmware/ASL_EFX35.X/app/beeper.c:52-58 | the statics start zeroed, not running, the stopwatch stopped at 0, and the wait at 25 ms |
| Beeper.BeeperTask.Init | firmware/ASL_EFX35.X/app/beeper.c:182-198 | no pattern, cycle 0, not running, nobody to signal, buzzer off, and the invariant holds |
| Beeper.BeeperTask.Beep | firmware/ASL_EFX35.X/app/beeper.c:208-218 | with the sound on the pattern becomes the session's; the start event is handed back iff the sound is on and the scheduler runs |
| Beeper.BeeperTask.BeepBlocking | firmware/ASL_EFX35.X/app/beeper.c:230-244 | as Beep, and with the sound on the caller is also marked to be signalled on completion |
| Beeper.BeeperTask.BeepPatternStart | firmware/ASL_EFX35.X/app/beeper.c:406-418 | only the session pattern changes; the start event is handed back iff the scheduler runs |
| Beeper.BeeperTask.PatternStop | firmware/ASL_EFX35.X/app/beeper.c:426-447 | the state becomes the one Stop gives |
| Beeper.BeeperTask.PatternStart | firmware/ASL_EFX35.X/app/beeper.c:601-611 | the state becomes the one StartPattern gives |
| Beeper.BeeperTask.TaskOpen | firmware/ASL_EFX35.X/app/beeper.c:276-280 | a pattern asked for before the beeper task ran is started; the invariant is kept |
| Beeper.BeeperTask.TaskPass | firmware/ASL_EFX35.X/app/beeper.c:282-381 | one pass gives the state and signal that PassAsWritten gives, and keeps the invariant with the session pattern equal to the current one |
| Beeper.BeeperTask.Arbitration | firmware/ASL_EFX35.X/app/beeper.c:294-325 | the pass's first half gives what ArbitrateAsWritten gives, with CanRunBeepPattern passed the request twice |
| Beeper.BeeperTask.TakeOverStep | firmware/ASL_EFX35.X/app/beeper.c:309-321 | the take-over gives what TakeOverAsWritten gives: a running pattern is stopped, then the session pattern is started |
| Beeper.BeeperTask.CycleStep | firmware/ASL_EFX35.X/app/beeper.c:327-380 | the pass's second half gives what Advance gives |
| MainState.Clamped | firmware/ASL_EFX35.X/app/MainState.c:182-221 | the clamped counter never exceeds half a second's passes and is the counter itself when it already does not |
| MainState.PadDemand | firmware/ASL_EFX35.X/app/MainState.c:266-290 | the pad demand sets at most one axis, each within -100 .. 100, and is zero with the pads in neutral |
| MainState.Stepped | firmware/ASL_EFX35.X/app/MainState.c:150-408 | no pass enters the unused idle-counter state, and only a pass of the driving state sends a demand |
| MainState.AllowsBeeping | firmware/ASL_EFX35.X/app/MainState.c:428-431 | beeping is disallowed exactly in the idle state |
| MainState.InitialInv | firmware/ASL_EFX35.X/app/MainState.c:123-143 | the engine MainTaskInitialise sets up satisfies the invariant |
| MainState.StepKeepsInv | firmware/ASL_EFX35.X/app/MainState.c:150-408 | every pass keeps the invariant: the unused idle-counter state is never entered, the switch delay stays within 0 .. 3000/MAIN_TASK_DELAY, the start-up counter within -1 .. 1000/MAIN_TASK_DELAY and not negative in the out-of-neutral check |
| MainState.DivMonotone | firmware/ASL_EFX35.X/app/MainState.c:126-305 | a longer time gives at least as many passes (used for the 500, 1000 and 3000 ms counts) |
| MainState.DrivingDemand | firmware/ASL_EFX35.X/app/MainState.c:266-310 | a speed/direction demand is sent exactly on passes of the driving state; with the switch held or the pads in neutral it is zero; otherwise left, right, centre and back are tried in that order and the first pressed one sets one axis to full scale |
| MainState.DrivingIsGuarded | firmware/ASL_EFX35.X/app/MainState.c:215-367 | driving is entered only from the driving set-up state with the user switch released; that state only after the ready announcement or from the idle state with SW3 on and the switch pressed; the ready announcement only after a pass in neutral in the out-of-neutral check |
| MainState.NeutralCountdown | firmware/ASL_EFX35.X/app/MainState.c:215-232 | in the out-of-neutral check, n passes in neutral count the counter down by n, and the ready announcement comes exactly on the pass that takes it below 1 |
| MainState.OutOfNeutralRestarts | firmware/ASL_EFX35.X/app/MainState.c:228-231 | a pass out of neutral in the check restarts the half-second count and changes nothing else |
| MainState.UserSwitchHold | firmware/ASL_EFX35.X/app/MainState.c:297-340 | pressing the switch while driving stops the chair, turns the power LED off, beeps and starts the three-second count; held to the end of the count it leads to Bluetooth set-up with the Bluetooth announcement; released earlier it leads to the idle state with the LED off |
| MainState.MirrorOnlyInBluetooth | firmware/ASL_EFX35.X/app/MainState.c:394-408 | the pads are mirrored exactly on passes in Bluetooth mode, and a press there ends it and restarts the out-of-neutral check |
| MainState.IdleStateQuiet | firmware/ASL_EFX35.X/app/MainState.c:347-367 | a press in the idle state asks for the resume beep and leaves it for a state that allows beeping |
| MainState.MainTask.constructor | firmware/ASL_EFX35.X/app/MainState.c:123-143 | the pass period is MAIN_TASK_DELAY and the engine starts in the start-up state with one second's passes to wait |
| MainState.MainTask.DoesMainAllowBeeping | firmware/ASL_EFX35.X/app/MainState.c:428-431 | the answer is AllowsBeeping of the engine: beeping is allowed except in the idle state |
| MainState.MainTask.Step | firmware/ASL_EFX35.X/app/MainState.c:150-166 | one pass runs the current state function once, giving the engine and effects Stepped gives |
| MainState.MainTask.Startup | firmware/ASL_EFX35.X/app/MainState.c:179-199 | the start-up state's pass: clamp, count down, and at the end the power LED on and the out-of-neutral check with SW3 on, else the LED off and the idle state |
| MainState.MainTask.Oonapu | firmware/ASL_EFX35.X/app/MainState.c:215-232 | the out-of-neutral check's pass, as Stepped gives |
| MainState.MainTask.Driving | firmware/ASL_EFX35.X/app/MainState.c:266-310 | the driving state's pass, as Stepped gives |
| MainState.MainTask.DrivingUserSwitch | firmware/ASL_EFX35.X/app/MainState.c:318-340 | the switch-hold state's pass, as Stepped gives |
| MainState.MainTask.DrivingIdle | firmware/ASL_EFX35.X/app/MainState.c:347-367 | the idle state's pass, as Stepped gives |
| HhpApp.OutputMapRoundTrip | firmware/ASL_EFX35.X/app/ha_hhp_interface_app.c:1030-1078 | the wire output codes and the stored output functions translate into each other and back unchanged; any other wire code is stored as "none" and read back as "off" |
| HhpApp.InputTypeCodes | firmware/ASL_EFX35.X/app/ha_hhp_interface_app.c:1086-1099 | a pad type is stored as digital exactly for 'D' and as proportional exactly for 'P' |
| HhpApp.CalcChecksum | firmware/ASL_EFX35.X/app/ha_hhp_interface_app.c:1107-1117 | the loop returns the 8-bit sum of the first len bytes of the packet |
| HhpApp.AckResp | firmware/ASL_EFX35.X/app/ha_hhp_interface_app.c:529-533 | the ACK response is well framed: its length byte counts itself, the code and the checksum |
| HhpApp.NackResp | firmware/ASL_EFX35.X/app/ha_hhp_interface_app.c:541-545 | the NACK response is well framed |
| HhpApp.PadAssignmentGetResp | firmware/ASL_EFX35.X/app/ha_hhp_interface_app.c:572-603 | the pad-assignment response is well framed for every selector; its contents are stated by PadAssignmentSetThenGet |
| HhpApp.PadAssignmentSet | firmware/ASL_EFX35.X/app/ha_hhp_interface_app.c:611-631 | storing a pad's output function and input type keeps the item store well formed; what is stored is stated by PadAssignmentSetThenGet |
| HhpApp.CalRangeGetResp | firmware/ASL_EFX35.X/app/ha_hhp_interface_app.c:639-698 | the calibration-range response is well framed (10 bytes with its checksum); its contents are stated by GetResponsesReportStore |
| HhpApp.CalRangeSet | firmware/ASL_EFX35.X/app/ha_hhp_interface_app.c:706-740 | storing a pad's two thresholds keeps the item store well formed; what is stored is stated by CalRangeSetThenGet |
| HhpApp.PadDataResp | firmware/ASL_EFX35.X/app/ha_hhp_interface_app.c:779-828 | the pad-data response for a known selector is well framed and 5 bytes long before its checksum |
| HhpApp.PadDataGetResp | firmware/ASL_EFX35.X/app/ha_hhp_interface_app.c:748-829 | the pad-data response is well framed for every selector |
| HhpApp.PadDataSelects | firmware/ASL_EFX35.X/app/ha_hhp_interface_app.c:748-777 | pad-data-get NACKs a selector other than 'L', 'R' or 'C', and otherwise reports the named pad with its stored input type and the stored neutral-DAC setting and range |
| HhpApp.PadDataReports | firmware/ASL_EFX35.X/app/ha_hhp_interface_app.c:779-828 | a digital pad reports its state, 0 or 1, in bytes 2 and 4 with 0 in bytes 1 and 3; a proportional pad reports its raw reading and its demand percentage, most significant byte first, and 0 for a demand on the wrong side of the neutral setting |
| HhpApp.VersionResp | firmware/ASL_EFX35.X/app/ha_hhp_interface_app.c:553-564 | the version response is well framed |
| HhpApp.EnabledFeaturesGetResp | firmware/ASL_EFX35.X/app/ha_hhp_interface_app.c:837-843 | the enabled-features response is well framed; its contents are stated by EnabledFeaturesSetThenGet |
| HhpApp.EnabledFeaturesSet | firmware/ASL_EFX35.X/app/ha_hhp_interface_app.c:851-866 | storing the features keeps the item store well formed; what is stored is stated by EnabledFeaturesStored |
| HhpApp.ModeOfOpSet | firmware/ASL_EFX35.X/app/ha_hhp_interface_app.c:874-889 | the response is well framed and the item store stays well formed |
| HhpApp.HeartbeatResp | firmware/ASL_EFX35.X/app/ha_hhp_interface_app.c:899-920 | the heartbeat response is well framed; its contents are stated by HeartbeatReports |
| HhpApp.NeutralDacGetResp | firmware/ASL_EFX35.X/app/ha_hhp_interface_app.c:928-946 | the neutral-DAC response is well framed; its contents are stated by GetResponsesReportStore |
| HhpApp.NeutralDacSet | firmware/ASL_EFX35.X/app/ha_hhp_interface_app.c:954-977 | the response is well framed and the item store stays well formed; the range check is stated by NeutralDacSetChecked |
| HhpApp.DriveOffsetGetResp | firmware/ASL_EFX35.X/app/ha_hhp_interface_app.c:986-994 | the drive-offset response is well framed; its contents are stated by DriveOffsetSetThenGet |
| HhpApp.DriveOffsetSet | firmware/ASL_EFX35.X/app/ha_hhp_interface_app.c:1006-1022 | the response is well framed and the item store stays well formed; the bound check is stated by DriveOffsetSetChecked |
| HhpApp.Dispatch | firmware/ASL_EFX35.X/app/ha_hhp_interface_app.c:212-509 | every command, known or not, gets a well-framed response, and the item store and the EEPROM keep their shapes |
| HhpApp.DispatchLater | firmware/ASL_EFX35.X/app/ha_hhp_interface_app.c:369-509 | the same for the commands from features-set on |
| HhpApp.DispatchStatus | firmware/ASL_EFX35.X/app/ha_hhp_interface_app.c:416-509 | the same for the commands from the heartbeat on |
| HhpApp.DispatchParameter | firmware/ASL_EFX35.X/app/ha_hhp_interface_app.c:469-509 | the same for the commands from save-parameters on, and the default case |
| HhpApp.Emit | firmware/ASL_EFX35.X/app/ha_hhp_interface_app.c:520 | writing the response and its checksum keeps the transmit buffer's size |
| HhpApp.Handle | firmware/ASL_EFX35.X/app/ha_hhp_interface_app.c:209-518 | every frame, well formed or not, gets a well-framed response, and the item store and the EEPROM keep their shapes; the NACK of a bad frame is stated by BadFrameNacks |
| HhpApp.Process | firmware/ASL_EFX35.X/app/ha_hhp_interface_app.c:200-521 | processing a frame keeps the transmit buffer's size and the shapes of the item store and the EEPROM |
| HhpApp.EmitLayout | firmware/ASL_EFX35.X/app/ha_hhp_interface_app.c:520 | after the response the transmit buffer holds the response's 8-bit sum, and every later byte is as it was |
| HhpApp.ResponseHasChecksum | firmware/ASL_EFX35.X/app/ha_hhp_interface_app.c:200-521 | after any frame the transmit buffer begins with a 3- to 10-byte response whose last byte is the checksum of the bytes before it |
| HhpApp.ShortBytes | firmware/ASL_EFX35.X/app/ha_hhp_interface_app.c:520-545 | an ACK or NACK goes out as length 3, the code, and their sum, and leaves the rest of the buffer untouched |
| HhpApp.BadFrameNacks | firmware/ASL_EFX35.X/app/ha_hhp_interface_app.c:209-518 | a frame with a wrong checksum, or a length byte of 0, gets a NACK and leaves the settings, the EEPROM and the calibration flag unchanged |
| HhpApp.UnknownCommandNacks | firmware/ASL_EFX35.X/app/ha_hhp_interface_app.c:504-511 | a correctly checksummed frame with an unknown command gets a NACK and changes nothing |
| HhpApp.AlwaysAckedCommandsAck | firmware/ASL_EFX35.X/app/ha_hhp_interface_app.c:232-487 | pad-assignment-set, cal-range-set, calibration start and stop, features-set, save and reset are always ACKed; calibration start sets the calibration flag, stop clears it, and the others keep it |
| HhpApp.AckedDispatch | firmware/ASL_EFX35.X/app/ha_hhp_interface_app.c:232-487 | the handler of an always-ACKed command answers ACK and sets the calibration flag as the command says |
| HhpApp.DriveOffsetSetChecked | firmware/ASL_EFX35.X/app/ha_hhp_interface_app.c:1006-1022 | drive-offset-set ACKs and stores all three minimum drive speeds exactly when each is at most 60; otherwise it NACKs and stores nothing |
| HhpApp.NeutralDacSetChecked | firmware/ASL_EFX35.X/app/ha_hhp_interface_app.c:954-977 | neutral-DAC-set ACKs and stores the big-endian value exactly when it lies within counts - range .. counts + range, compared as signed 16-bit values with wrapping bounds; otherwise it NACKs and stores nothing |
| HhpApp.DacInRangeInterval | firmware/ASL_EFX35.X/app/ha_hhp_interface_app.c:965-966 | for 12-bit DAC values no bound wraps, and the range check is the plain interval test |
| HhpApp.HeartbeatReports | firmware/ASL_EFX35.X/app/ha_hhp_interface_app.c:899-920 | the heartbeat echoes the request's byte, reports the current feature plus one, and sets its status bits, from 0x01 up, to: device active, calibrating, the three pads connected (always), neutral-test failure, user switch, mode switch |
| HhpApp.StatusBits | firmware/ASL_EFX35.X/app/ha_hhp_interface_app.c:910-919 | eight 0-or-1 flags packed by powers of two are read back bit by bit |
| HhpApp.PadAssignmentSetThenGet | firmware/ASL_EFX35.X/app/ha_hhp_interface_app.c:572-631 | assigning a pad a known output code and pad type, then reading its assignment, reports the same two codes |
| HhpApp.EnabledFeaturesSetThenGet | firmware/ASL_EFX35.X/app/ha_hhp_interface_app.c:837-866 | setting the features, then reading them, reports the three bytes that were sent |
| HhpApp.EnabledFeaturesStored | firmware/ASL_EFX35.X/app/ha_hhp_interface_app.c:851-866 | features-set stores both feature bytes and the long-press time in milliseconds (100 times the byte sent) |
| HhpApp.DriveOffsetSetThenGet | firmware/ASL_EFX35.X/app/ha_hhp_interface_app.c:986-1022 | an accepted drive-offset-set, then drive-offset-get, reports the speeds sent |
| HhpApp.ModeOfOpSetToday | firmware/ASL_EFX35.X/app/ha_hhp_interface_app.c:874-889 | while every feature is reported disabled, mode-of-operation-set always NACKs and stores nothing |
| HhpApp.GetResponsesReportStore | firmware/ASL_EFX35.X/app/ha_hhp_interface_app.c:639-946 | the neutral-DAC and calibration-range responses report the stored 16-bit values, most significant byte first |
| HhpApp.CalRangeSetThenGet | firmware/ASL_EFX35.X/app/ha_hhp_interface_app.c:639-740 | setting a pad's thresholds, then reading its range, returns the threshold bytes that were sent |
| HhpApp.DefaultsKeepRange | firmware/ASL_EFX35.X/app/eeprom_app.c:637-699 | SetDefaultValues does not assign the neutral-DAC range |
| HhpApp.ZeroRangeAfterFirstStartUp | firmware/ASL_EFX35.X/app/eeprom_app.c:336-348 | start-up over the zeroed RAM image and an unprogrammed EEPROM leaves the neutral-DAC range 0 |
| HhpApp.DemandPercentAgrees | firmware/ASL_EFX35.X/app/ha_hhp_interface_app.c:800-820 | with a non-zero range the model's percentage equals the firmware's, and it is at most 100 for a demand within a range below 656 |
| HhpApp.DemandPercent | firmware/ASL_EFX35.X/app/ha_hhp_interface_app.c:800-820 | the percentage is 0 for a zero range and the firmware's quotient otherwise (see Findings) |
| HhpApp.DemandPercentAsWritten | firmware/ASL_EFX35.X/app/ha_hhp_interface_app.c:800-820 | for a non-zero range the firmware's percentage is the floor of the wrapped 16-bit product excess * 100 divided by the range |
| HhpApp.ZeroLengthFrameOverruns | firmware/ASL_EFX35.X/drivers/ha_hhp_interface.c:61-83 | a frame whose length byte is 0 is accepted, and then the firmware's checksum test spans 255 bytes and reads index -1 |
| HhpApp.CalRangeResponseOverflows | firmware/ASL_EFX35.X/app/ha_hhp_interface_app.c:639-698 | the calibration-range response's length byte is 10, longer than the 8-byte transmit buffer |
| HhpApp.BuildAckPacket | firmware/ASL_EFX35.X/app/ha_hhp_interface_app.c:529-533 | the transmit buffer starts with the ACK response; the rest is untouched |
| HhpApp.BuildNackPacket | firmware/ASL_EFX35.X/app/ha_hhp_interface_app.c:541-545 | the transmit buffer starts with the NACK response; the rest is untouched |
| HhpApp.BuildVersionsResponsePacket | firmware/ASL_EFX35.X/app/ha_hhp_interface_app.c:553-564 | the transmit buffer starts with the version response |
| HhpApp.HandlePadAssignmentGet | firmware/ASL_EFX35.X/app/ha_hhp_interface_app.c:572-603 | the transmit buffer starts with PadAssignmentGetResp of the frame and the stored settings |
| HhpApp.HandlePadAssignmentSet | firmware/ASL_EFX35.X/app/ha_hhp_interface_app.c:611-631 | the item store becomes PadAssignmentSet of the frame; the EEPROM is untouched |
| HhpApp.HandlePadCalibrationDataGet | firmware/ASL_EFX35.X/app/ha_hhp_interface_app.c:639-698 | the transmit buffer starts with CalRangeGetResp |
| HhpApp.HandlePadCalibrationDataSet | firmware/ASL_EFX35.X/app/ha_hhp_interface_app.c:706-740 | the item store becomes CalRangeSet of the frame; the EEPROM is untouched |
| HhpApp.HandlePadDataGet | firmware/ASL_EFX35.X/app/ha_hhp_interface_app.c:748-829 | the transmit buffer starts with PadDataGetResp |
| HhpApp.WritePadData | firmware/ASL_EFX35.X/app/ha_hhp_interface_app.c:779-828 | the transmit buffer starts with PadDataResp for the pad's input type and the neutral-DAC values |
| HhpApp.BuildEnabledFeaturesResponsePacket | firmware/ASL_EFX35.X/app/ha_hhp_interface_app.c:837-843 | the transmit buffer starts with EnabledFeaturesGetResp |
| HhpApp.HandleEnabledFeaturesSet | firmware/ASL_EFX35.X/app/ha_hhp_interface_app.c:851-866 | the item store becomes EnabledFeaturesSet of the frame; the EEPROM is untouched |
| HhpApp.HandleModeOfOpSet | firmware/ASL_EFX35.X/app/ha_hhp_interface_app.c:874-889 | response and item store as ModeOfOpSet says; the EEPROM is untouched |
| HhpApp.BuildHeartBeatResponsePacket | firmware/ASL_EFX35.X/app/ha_hhp_interface_app.c:899-920 | the transmit buffer starts with HeartbeatResp of the frame, the settings and the device flags |
| HhpApp.BuildDacGetResponse | firmware/ASL_EFX35.X/app/ha_hhp_interface_app.c:928-946 | the transmit buffer starts with NeutralDacGetResp |
| HhpApp.HandleDacSetCommand | firmware/ASL_EFX35.X/app/ha_hhp_interface_app.c:954-977 | response and item store as NeutralDacSet says; the EEPROM is untouched |
| HhpApp.CreateGetOffsetResponse | firmware/ASL_EFX35.X/app/ha_hhp_interface_app.c:986-994 | the transmit buffer starts with DriveOffsetGetResp |
| HhpApp.CreateSetOffsetResponse | firmware/ASL_EFX35.X/app/ha_hhp_interface_app.c:1006-1022 | response and item store as DriveOffsetSet says; the EEPROM is untouched |
| HhpApp.SaveParameters | firmware/ASL_EFX35.X/app/ha_hhp_interface_app.c:469-477 | a forced flush of every item, as FlushState says |
| HhpApp.ResetParameters | firmware/ASL_EFX35.X/app/ha_hhp_interface_app.c:478-487 | the defaults assigned, then a forced flush |
| HhpApp.ProcessCommand | firmware/ASL_EFX35.X/app/ha_hhp_interface_app.c:212-509 | the switch leaves the response, the settings, the EEPROM and the calibration flag Dispatch describes, and keeps the device-active flag |
| HhpApp.EnabledFeaturesSetCommand | firmware/ASL_EFX35.X/app/ha_hhp_interface_app.c:369-394 | features stored as EnabledFeaturesSet says, then an ACK |
| HhpApp.ProcessLaterCommand | firmware/ASL_EFX35.X/app/ha_hhp_interface_app.c:369-509 | the rest of the switch, as DispatchLater describes |
| HhpApp.ProcessStatusCommand | firmware/ASL_EFX35.X/app/ha_hhp_interface_app.c:416-509 | the heartbeat, neutral-DAC and later cases, as DispatchStatus describes |
| HhpApp.ProcessParameterCommand | firmware/ASL_EFX35.X/app/ha_hhp_interface_app.c:469-509 | the save, reset, drive-offset and default cases, as DispatchParameter describes |
| HhpApp.ProcessRxdPacket | firmware/ASL_EFX35.X/app/ha_hhp_interface_app.c:200-521 | the transmit buffer, settings, EEPROM and calibration flag after a frame are those Process describes |
| HhpApp.HandleFrame | firmware/ASL_EFX35.X/app/ha_hhp_interface_app.c:209-518 | the checksum test and the switch leave the response Handle describes at the start of the transmit buffer |
| HhpApp.AppendChecksum | firmware/ASL_EFX35.X/app/ha_hhp_interface_app.c:520 | writing the checksum after the response gives the buffer Emit describes |
| HhpApp.HandlingStep | firmware/ASL_EFX35.X/app/ha_hhp_interface_app.c:156-188 | a packet is sent exactly when RTS is asserted, the line is ready and a frame is received; it is the first tx[0] bytes of the processed transmit buffer; with no packet nothing changes |
| HhpApp.TransmittedPacketsChecksummed | firmware/ASL_EFX35.X/app/ha_hhp_interface_app.c:156-521 | every packet the HHP task sends is 3 to 10 bytes long, its first byte is its length and its last byte is the checksum of the others |

## Left out

- The cocoOS scheduler: `task_open`, `task_wait`, `event_signal`, semaphores, and the tick hand-off of isrs.c. Each task's loop body is one method call, so interleavings of tasks are not modelled. Events are results that say which event a call would signal.
- Clocks and hardware reads are parameters. These are the tick counter (`Stopwatch.Clock`), the GPIO switch pattern, the pad inputs, SW3, the HHP link bytes, its RTS and ready lines, and the readings `HhpApp.Env` carries (neutral-test failure, the switch status, the pads' digital and raw values, the DAC outputs).
- The register-level BSP drivers are not part of this model: GPIO, UART, the HHP link BSP, the beeper pin and the LED pins. dac_bsp.c is kept as a trace of pin writes.
- The Python beautify script, led_app.c, main.c and the RS232/eFix code are not part of this model. The first is a code formatter. The others are stale code calling undefined identifiers, or initialisation order only.
- Code under compile switches that are off is left out. This covers the DEBUG asserts, TEST_BASIC_DAC_CONTROL (app/head_array.c:155,554-562,882), the mutex callbacks of general_output_ctrl.c (GENERAL_OUTPUT_CTRL_USE_MUTEX is undefined), and the commented-out proportional mixing in head_array.c.
- The deliberately unused code of head_array.c (`myA`, `doThis`, app/head_array.c:415-419) is left out.
- `CarryOutShortPressAction` and `CarryOutLongPressAction` (app/user_button.c:331-419) are left out. Their only calls are commented out.
- general_output_ctrl_app.c `AddStates` and the Bluetooth-LED controller calls of the control task (app/general_output_ctrl_app.c:385,409-418) are left out. They use state-table identifiers that no shown header defines.
- GenOutCtrl_Init and GenOutCtrl_Deinit (drivers/general_output_ctrl.c:221-310) are left out. Their table setup is the constructor of `GenOutCtrl.OutputCtrlModule`.
- OutputCtrlrStateGet (drivers/general_output_ctrl.c:691-702) is left out; it returns a field the model exposes directly.
- The BSP-enable wrappers EnableAll, Enable, DisableAll and Disable (drivers/general_output_ctrl.c:713-797) are left out. They only forward to the BSP.
- The application callback setters (drivers/general_output_ctrl.c:870-921) are left out; they only store the callbacks.
- BeeperWaitUntilPatternCompletes, IsBeepEnabled, `blocking_task_id` and the beeper's mutex are left out, since they are scheduler plumbing. `soundEnabled` and "is the scheduler running" are parameters of `Beeper.BeeperTask.Beep`.
- MirrorDigitalInputOnBluetoothOutput (app/head_array.c:728-735, app/MainState.c:416-422) drives GPIO lines. The head-array task counts the calls that switch the mirroring off (`mirrorDisables`), and `MainState.Effects.mirror` records a mirroring pass.
- The LED state requests of the head-array task are recorded in a log of state numbers rather than queued. `needSendEvent` (genOutCtrlAppNeedSendEvent) is a parameter.
- PadsInNeutralState and HEAD_ARRAY_SENSOR_BACK, used by app/MainState.c:217,270,286, are declared but not defined in the shown sources. They are inputs of `MainState.Inputs` (`padsInNeutral`, `back`).
- BEEPER_PATTERN_USER_BUTTON_LONG_PRESS is used by app/user_button.c:85 and app/beeper.c:150,485,548 but is not in the shown enumeration. `BeepPatterns.BeepPattern` has the enumerators the header declares.
- MILLISECONDS_TO_TICKS is taken as the identity: one tick per millisecond.
- Concurrency on the request queue between the filling tasks and the output-control task is left out; each enqueue and drain is atomic in the model.
- `EepromApp.Addr` is stated in closed form, one offset per item, and `EepromApp.AddrChain` proves that it is the chain of MM_* macros.
- `EepromBsp`: the firmware's ASSERT that start + n < 256 is compiled out, so the model keeps the uint8_t address wrap-around instead of requiring the bound.
- `DacBsp.DacPort.Set`: the closing clock-high write of dacBspSet is a thirteenth rising edge. The model states that it shifts bit 0 in again after the load and leaves the DAC output alone.
- `UserButton.ButtonMonitor.MonitorStep` takes the switch pattern GetSwitchStatus returned for the pass as a parameter. The GPIO read behind it is left out.
- `HhpApp.DemandPercent` reports 0 for a zero neutral-DAC range, where the firmware divides by zero (see Findings).
- `HhpApp.Handle` NACKs a frame whose length byte is 0, where the firmware reads before its buffer (see Findings).
- GenOutCtrl.Tick, GenOutCtrl.Started, GenOutCtrl.Switched, GenOutCtrl.OutputCtrlrIsActive, GenOutCtrl.OutputCtrlModule.TickUpdate, GenOutCtrl.OutputCtrlModule.Start, GenOutCtrl.OutputCtrlModule.StateSet and the bank methods over them, with GenOutCtrlApp.Serve, GenOutCtrlApp.RequestQueue.Drain and GenOutCtrlApp.RequestQueue.ControlCycle (their `AllReady` precondition), require a current state wherever the firmware follows `curr_state_obj`. The firmware accepts these calls and dereferences NULL, which is undefined behaviour the model does not describe. Two calls reach it: GenOutCtrl_Start on a controller with no states (StateCtrlr_EndOfList answers false for NULL at drivers/general_output_ctrl.c:1086, and StateCtrlr_NextControlSubstep then reads the state), and GenOutCtrl_TestModeSet on a controller without a GEN_OUT_STATE_CTRL_TEST state (it stores the NULL StateControlObject_Get returns, drivers/general_output_ctrl.c:976,1137, which the next TickUpdate or StateSet follows).
- Beeper.Advance and Beeper.BeeperTask.CycleStep look cycles up in the corrected table (`Beeper.PatternTable`), since the fifth RNet-seating cycle as written reads past a four-entry table, which is undefined behaviour (see Findings).
- ArbitrateKeepsInv, PassKeepsInv, PriorityDecidesTakeOver, Beeper.Arbitrate, Beeper.TakeOver and Beeper.Pass are about the corrected arbitration, which the beeper task does not run; the task follows Beeper.ArbitrateAsWritten, whose invariant is ArbitrateAsWrittenKeepsInv and PassAsWrittenKeepsInv.
- appCommonFeatureIsEnabled returns false for every feature today. The HHP handlers take the answers as `Env.enabled`, and `HhpApp.ModeOfOpSetToday` instantiates it with `AppCommon.EnabledTable()`.

## Findings

| source | as written | input that shows it | evidently intended | confidence | as-written member | corrected member |
|---|---|---|---|---|---|---|
| firmware/ASL_EFX35.X/app/ha_hhp_interface_app.c:104,642-697 | the transmit buffer has HHP_RX_TX_BUFF_LEN = 8 bytes, but the calibration-range response sets its length byte to 10 and writes bytes 0 to 9 | a correctly checksummed cal-range-get frame `[3, 0x32, 0x35]` | a transmit buffer of at least 10 bytes | not executed | HhpApp.CalRangeResponseOverflows | HhpApp.TransmittedPacketsChecksummed |
| firmware/ASL_EFX35.X/drivers/ha_hhp_interface.c:66-67; firmware/ASL_EFX35.X/app/ha_hhp_interface_app.c:209 | a length byte of 0 is accepted; the checksum test then sums the uint8_t length 255 and compares with rxd_pkt[-1] | the single byte `0` on the link | a frame shorter than its length and checksum (0 bytes) is NACKed | not executed | HhpApp.ZeroLengthFrameOverruns | HhpApp.BadFrameNacks |
| firmware/ASL_EFX35.X/app/ha_hhp_interface_app.c:800-820; firmware/ASL_EFX35.X/app/eeprom_app.c:637-699 | the pad-data percentage divides by the stored neutral-DAC range, which no default and no command assigns, so it stays 0 after the first start-up | pad-data-get `[4, 0x36, 'L', ck]` for a proportional pad after a first start-up on a blank EEPROM | a defined percentage; the model reports 0 for a zero range | not executed | HhpApp.ZeroRangeAfterFirstStartUp | HhpApp.DemandPercentAgrees |
| firmware/ASL_EFX35.X/app/beeper.c:513-515,576-579 | the RNet-seating announcement counts 5 cycles but is given the 4-entry next-profile table | BeepPatternStart of the RNet-seating pattern | the announcement's own 5-entry table | not executed | Beeper.RnetSeatingOverrunsItsTable | Beeper.TableCoversCycles |
| firmware/ASL_EFX35.X/app/beeper.c:142-154,307,455-465 | CanRunBeepPattern compares the request with session_pattern, which is the request itself, and the priority table is typed bool, so priorities collapse to 0 and 1 | the Bluetooth announcement requested while the short-press beep plays | a request of higher priority takes over the running pattern | not executed | Beeper.PriorityIsIgnoredAsWritten | Beeper.PriorityDecidesTakeOver |
| firmware/ASL_EFX35.X/app/beeper.c:309-321,426-430,601-611 | the take-over branch calls BeepPatternStop, which sets session_pattern to EOL, before StartBeepPattern copies session_pattern | any request allowed to take over a running pattern | the requested pattern starts | not executed | Beeper.TakeOverLosesRequestAsWritten | Beeper.PriorityDecidesTakeOver |
| firmware/ASL_EFX35.X/app/head_array.c:765-774 | InNeutralState is true only when every pad's input is true, although a pad's input reads true when it is pressed | all three pads released | neutral means no pad is pressed | not executed | HeadArray.NeutralWaitNeverEndsAsWritten | HeadArray.NeutralWaitEnds |
