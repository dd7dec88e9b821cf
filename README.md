# PAL mbed OS port: a verified model

This project models the logic of the mbed OS reference port of the Platform
Abstraction Layer (PAL), and of two of the Python scripts from its test
suite. Every part is proved in Dafny.

- **Firmware-update port.** Source: `pal_plat_update.cpp`.
  - The driver and journal error translators.
  - The 56-byte firmware header.
  - The one-program-unit overflow buffer that holds write fragments not yet logged to the flash journal.
  - The Setup, Write, Read, Commit and GetActiveHash machines.
  - The journal and volume-manager completion callbacks.
  - The public `pal_plat_image*` entry points.
  - The module globals become the fields of one `Engine` object.
  - A state action that completes synchronously calls the machine's `Enter` again. Each `Enter` becomes a loop over a step method that runs one state's action.
  - The storage stack is one scripted environment object, `UpdateStorage.Storage`. It records every request and answers each one Pending, Completed(n) or Failed(code). It holds the request whose completion callback is still to come. The volume manager, the MTD drivers and the flash journal belong to this stack.
- **RTOS thread bookkeeping.** Sources: `pal_plat_rtos.cpp` and `pal_plat_rtos.c`.
  - The fixed thread table `g_palThreads`, as an `array` of slots, with first-free allocation, cleanup to defaults, lookup and termination.
  - The priority maps.
  - The tick conversions.
  - The CMSIS calls become method parameters: the running thread's id, the id `osThreadNew` returns, the pointer `malloc` returns, and the `osThreadTerminate` status.
- **`unity_to_junit.py`.**
  - Tag extraction from a Unity log.
  - Parsing of test group and name.
  - The tag-stream collector.
  - The counts and final status of the text and JUnit reports.
- **`mbed.py`.**
  - The device availability table of `MbedDeviceManager`.
  - The `is_valid_ip` pattern.

Integer widths are explicit:

- `uint32` and `uint64` wrap-around is modelled by `Words.ToUint32` and `Words.ToUint64`.
- An `int32` reinterpretation is modelled by `Words.ToInt32`.
- Pointers are addresses, and 0 is NULL.

The header checksum is an uninterpreted function (`Crc`) of the header's bytes.

## Model

| member | source | states |
|---|---|---|
| PalStatus.TranslateDriverErr | Source/Port/Reference-Impl/mbedOS/Update/pal_plat_update.cpp:99-127 | The result is PAL_SUCCESS exactly when the driver code is not negative. Each listed negative code maps to its fixed PAL code. Any other negative code maps to PAL_ERR_UPDATE_ERROR. Every negative code yields an update failure code. |
| PalStatus.TranslateJournalErr | Source/Port/Reference-Impl/mbedOS/Update/pal_plat_update.cpp:131-176 | The same four facts for flash-journal codes and their table. |
| PalStatus.JournalTranslationInjective | Source/Port/Reference-Impl/mbedOS/Update/pal_plat_update.cpp:131-176 | Two different listed journal codes never translate to the same PAL code. |
| PalStatus.DriverTranslationMerges | Source/Port/Reference-Impl/mbedOS/Update/pal_plat_update.cpp:99-127 | Two different listed driver codes translate to the same PAL code exactly when they are ARM_DRIVER_ERROR and ARM_DRIVER_ERROR_SPECIFIC. |
| FirmwareHeader.Encode | Source/Port/Reference-Impl/mbedOS/Update/pal_plat_update.cpp:178-187 | FirmwareHeader_t is laid out in 56 bytes, with the SHA-256 at bytes 24 to 56. |
| FirmwareHeader.Decode | Source/Port/Reference-Impl/mbedOS/Update/pal_plat_update.cpp:178-187 | Decoding succeeds exactly on 56 bytes. |
| FirmwareHeader.DecodeEncode | Source/Port/Reference-Impl/mbedOS/Update/pal_plat_update.cpp:178-187 | Decoding an encoded header gives that header back. |
| FirmwareHeader.EncodeDecode | Source/Port/Reference-Impl/mbedOS/Update/pal_plat_update.cpp:178-187 | Encoding a decoded 56-byte block gives that block back. |
| FirmwareHeader.BuildHeader | Source/Port/Reference-Impl/mbedOS/Update/pal_plat_update.cpp:794-813 | The header has magic 0x5a51b3d4 and version 1. Its totalSize is imageSize + 56 wrapped to 32 bits. It carries the image's firmware version and its 32 hash bytes. The checksum field is the CRC of the header encoded with that field zeroed. |
| FirmwareHeader.PayloadSize | Source/Port/Reference-Impl/mbedOS/Update/pal_plat_update.cpp:1088 | `totalSize - sizeof(header)` stored in an int32: the result is in int32 range, and adding 56 back in 32 bits gives totalSize. |
| FirmwareHeader.PayloadSizeOfBuiltHeader | Source/Port/Reference-Impl/mbedOS/Update/pal_plat_update.cpp:794-813 | For a header built by SetHeader, the first read's byte budget is the image size as an int32. It is exactly the image size when that size is below 2^31. |
| FirmwareHeader.ResidualSourceOffsetAsWritten | Source/Port/Reference-Impl/mbedOS/Update/pal_plat_update.cpp:958 | As written. The residual copy starts rc whole headers into memory, so for any partly logged header it lies outside the header object. |
| FirmwareHeader.ResidualCopyWithUnit32 | Source/Port/Reference-Impl/mbedOS/Update/pal_plat_update.cpp:958 | With 32 header bytes logged, the 24 residual bytes are read from byte 1792 rather than byte 32, past the header's end. |
| UpdateMachines.SetupAdvance | Source/Port/Reference-Impl/mbedOS/Update/pal_plat_update.cpp:638-666 | A negative status gives Error. Otherwise Uninitialized, VolumeManager, Format, DriverInitialized and Done each move one step along the chain. Done and Error stay put. |
| UpdateMachines.WriteAdvance | Source/Port/Reference-Impl/mbedOS/Update/pal_plat_update.cpp:892-919 | A negative status gives Error. Otherwise Uninitialized, MetadataLogged, ResidualLogged and Done each move one step. Done and Error stay put. |
| UpdateMachines.ReadAdvance | Source/Port/Reference-Impl/mbedOS/Update/pal_plat_update.cpp:1048-1077 | A negative status gives Error. Otherwise SkipMetadata, Uninitialized and Done each move one step. Done and Error stay put. |
| UpdateMachines.CommitAdvance | Source/Port/Reference-Impl/mbedOS/Update/pal_plat_update.cpp:1185-1207 | A negative status gives Error. Otherwise Uninitialized, ResidualLogged and Done each move one step. Done and Error stay put. |
| UpdateMachines.SetupRunOutcome | Source/Port/Reference-Impl/mbedOS/Update/pal_plat_update.cpp:638-666 | Over any series of completions, one failure leaves Setup in Error. From Uninitialized with no failures, it reaches Done exactly when at least four completions arrive. |
| UpdateMachines.SetupErrorAbsorbs | Source/Port/Reference-Impl/mbedOS/Update/pal_plat_update.cpp:638-666 | No series of completions leads Setup out of Error. |
| UpdateMachines.TopUp | Source/Port/Reference-Impl/mbedOS/Update/pal_plat_update.cpp:864-870 | The number of fragment bytes moved is min(program_unit - N, fragment_size). It never overfills the unit. |
| UpdateMachines.FillUnitLayout | Source/Port/Reference-Impl/mbedOS/Update/pal_plat_update.cpp:862-884 | The unit keeps its N buffered bytes, then holds the next k fragment bytes, then zeros to the end. Its length is one program unit. |
| UpdateMachines.ReadClampAsWritten | Source/Port/Reference-Impl/mbedOS/Update/pal_plat_update.cpp:1113-1121 | The clamp as written. The reported length is min(rc, remaining), and it satisfies ReadAccounted: at most what remains, with a non-negative remainder. A read within the image takes what it reports off the remainder. A read past the image end reports the remainder and leaves it in place. |
| UpdateMachines.ClampAsWrittenRepeatsTail | Source/Port/Reference-Impl/mbedOS/Update/pal_plat_update.cpp:1119-1127 | With 2 bytes left and two reads of 8, the code as written reports 4 bytes. |
| UpdateMachines.OverReadRepeatsTail | Source/Port/Reference-Impl/mbedOS/Update/pal_plat_update.cpp:1113-1121 | For any tail and any over-long read, the tail is still left afterwards, and the next read reports it again. |
| UpdateMachines.ClampsAgreeWithinImage | Source/Port/Reference-Impl/mbedOS/Update/pal_plat_update.cpp:1113-1121 | The clamp as written and the corrected clamp agree on every read that stays within the image. |
| UpdateMachines.ReadClamp | Source/Port/Reference-Impl/mbedOS/Update/pal_plat_update.cpp:1113-1127 | The corrected clamp. It reports min(rc, remaining), and what it reports plus what remains equals what remained before. |
| UpdateMachines.ReportedTotalBounded | Source/Port/Reference-Impl/mbedOS/Update/pal_plat_update.cpp:1113-1127 | With the corrected clamp, any series of positive synchronous reads reports between 0 and the image size bytes in total. |
| UpdateEngine.Engine.constructor | Source/Port/Reference-Impl/mbedOS/Update/pal_plat_update.cpp:206-227 | Every module global starts zeroed, and no machine is active. |
| UpdateEngine.Engine.LogResidual | Source/Port/Reference-Impl/mbedOS/Update/pal_plat_update.cpp:859-890 | With N = 0 it returns JOURNAL_STATUS_OK+1 and changes nothing. With N > 0: it tops the buffer up to `FillUnit` with k = min(program_unit - N, fragment_size) and drops those k bytes from the fragment. N grows by k. It then logs exactly one program unit and returns the journal's answer. |
| UpdateEngine.Engine.SetupVolumeManager | Source/Port/Reference-Impl/mbedOS/Update/pal_plat_update.cpp:674-701 | It clears metadata_logged. It initialises the volume manager unless that is ready. On a synchronous failure it returns the translated code without an event. On a synchronous completion it advances one state. Otherwise it waits. |
| UpdateEngine.Engine.SetupJournalVolume | Source/Port/Reference-Impl/mbedOS/Update/pal_plat_update.cpp:702-727 | It adds the journal volume at 0x90000 with size 0x70000, and initialises its MTD. Failures, completions and waits are handled as in SetupVolumeManager. |
| UpdateEngine.Engine.SetupJournal | Source/Port/Reference-Impl/mbedOS/Update/pal_plat_update.cpp:728-759 | It formats the journal with one slot, then initialises it. Failures, completions and waits are handled as above. |
| UpdateEngine.Engine.SetupFinish | Source/Port/Reference-Impl/mbedOS/Update/pal_plat_update.cpp:760-782 | It records the program unit and allocates an overflow buffer of one unit unless one exists. It then signals PREPARE. A GetInfo failure returns the translated code. |
| UpdateEngine.Engine.SetupStep | Source/Port/Reference-Impl/mbedOS/Update/pal_plat_update.cpp:672-790 | One Setup state's action. Error signals ERROR. |
| UpdateEngine.Engine.SetupEnter | Source/Port/Reference-Impl/mbedOS/Update/pal_plat_update.cpp:668-790 | A synchronous failure returns a PAL failure code and signals nothing. Error signals ERROR. Done signals PREPARE with the buffer allocated. Any other state leaves its request outstanding. The state never moves backwards, and an existing overflow buffer is kept. |
| UpdateEngine.Engine.WriteLogHeader | Source/Port/Reference-Impl/mbedOS/Update/pal_plat_update.cpp:928-951 | It logs the encoded header. A synchronous failure returns the translated code, and a completion advances one state. |
| UpdateEngine.Engine.StageHeader | Source/Port/Reference-Impl/mbedOS/Update/pal_plat_update.cpp:955-959 | With rc header bytes logged, the buffer's first 56 - rc bytes become header bytes rc..56, and overflowSize becomes 56 - rc. The buffer keeps its length. This is the copy as intended; the Findings table gives the one as written. |
| UpdateEngine.Engine.LogHeaderResidual | Source/Port/Reference-Impl/mbedOS/Update/pal_plat_update.cpp:952-962 | It sets metadata_logged. When the header was only partly logged, it stages the unlogged header bytes and logs exactly one padded unit that starts with them. It reports a pending request exactly when the journal answered JOURNAL_STATUS_OK. |
| UpdateMachines.FillUnitKeepsPrefix | Source/Port/Reference-Impl/mbedOS/Update/pal_plat_update.cpp:862-884 | Padding the unit keeps the N bytes already buffered at its start. |
| UpdateMachines.CopyToUnit | Source/Port/Reference-Impl/mbedOS/Update/pal_plat_update.cpp:1012 | Copying the unlogged bytes to the start of the overflow buffer keeps its length. The copied bytes come first, and the buffer's tail is kept. |
| UpdateEngine.Engine.WriteHeaderResidual | Source/Port/Reference-Impl/mbedOS/Update/pal_plat_update.cpp:952-977 | It sets metadata_logged. A partly logged header puts its unlogged bytes in the overflow buffer. It then logs through LogResidual. |
| UpdateEngine.Engine.LogFragment | Source/Port/Reference-Impl/mbedOS/Update/pal_plat_update.cpp:983-1000 | It logs the whole fragment. SMALL_LOG_REQUEST gives PAL_SUCCESS and the machine goes on. A failure returns an update failure code. JOURNAL_STATUS_OK waits for the completion. A count goes on; the tail it leaves is shorter than the overflow buffer. |
| UpdateEngine.Engine.WriteFragment | Source/Port/Reference-Impl/mbedOS/Update/pal_plat_update.cpp:978-1006 | It logs the rest of the fragment. SMALL_LOG_REQUEST counts as a completion that logged nothing. |
| UpdateEngine.Engine.WriteKeepTail | Source/Port/Reference-Impl/mbedOS/Update/pal_plat_update.cpp:1007-1018 | It keeps the unlogged tail of the fragment (fragment_size - logged bytes, less than one unit) in the overflow buffer. It then signals WRITE. |
| UpdateEngine.Engine.WriteStep | Source/Port/Reference-Impl/mbedOS/Update/pal_plat_update.cpp:921-1029 | One Write state's action, satisfying WriteStepped. Error signals ERROR and returns the status it was entered with. The fragment only loses a prefix. metadata_logged is set exactly when the header was logged in this step or before. |
| UpdateEngine.Engine.WriteEnter | Source/Port/Reference-Impl/mbedOS/Update/pal_plat_update.cpp:921-1029 | Done signals WRITE. The overflow buffer then holds the last overflowSize bytes of the fragment, with overflowSize = fragment_size - logged, or 0 when everything was logged. Error signals ERROR. The fragment only loses a prefix. metadata_logged is set once the header is logged. |
| UpdateEngine.Engine.ReadAdvanceWith | Source/Port/Reference-Impl/mbedOS/Update/pal_plat_update.cpp:1048-1077 | The state follows ReadAdvance. When still Uninitialized, a successful completion sets bufferLength to the status, as a uint32, only if bufferLength is still 0. Otherwise bufferLength is kept. |
| UpdateEngine.Engine.ReadStep | Source/Port/Reference-Impl/mbedOS/Update/pal_plat_update.cpp:1084-1147 | SkipMetadata sets the budget to PayloadSize and reads the 56-byte header. Uninitialized reads up to maxBufferLength and applies the clamp as written on a synchronous completion. Done signals READTOBUFFER. Error signals ERROR. |
| UpdateEngine.Engine.ReadSkipHeader | Source/Port/Reference-Impl/mbedOS/Update/pal_plat_update.cpp:1086-1098 | Skipping the metadata sets the budget to the header's payload size and asks the journal for the 56-byte header, leaving bufferLength alone. It moves one state forward or settles without moving. |
| UpdateEngine.Engine.ReadChunk | Source/Port/Reference-Impl/mbedOS/Update/pal_plat_update.cpp:1100-1132 | It asks for maxBufferLength bytes. A positive synchronous answer is reported as ReadClampAsWritten of the bytes remaining: within the image it is taken off the budget; past the image end the remainder is reported and kept. Otherwise nothing changes but the settled outcome. |
| UpdateEngine.Engine.ReadEnter | Source/Port/Reference-Impl/mbedOS/Update/pal_plat_update.cpp:1080-1149 | A read that completes in the call satisfies ReadAccounted against the budget: bufferLength is at most the budget and the remainder is not negative. Either they add up to the budget, or the read ran past the image end and bufferLength and the remainder both equal the budget. Requests it leaves outstanding are journal reads. |
| UpdateEngine.Engine.CommitStep | Source/Port/Reference-Impl/mbedOS/Update/pal_plat_update.cpp:1213-1270 | Uninitialized asks for the journal info and logs any residual as one padded unit. ResidualLogged empties the overflow buffer and commits. Done signals FINALIZE. |
| UpdateEngine.Engine.CommitLogResidual | Source/Port/Reference-Impl/mbedOS/Update/pal_plat_update.cpp:1215-1236 | Moving on, its requests are GetInfo followed by the residual log unit of the overflow buffer. A failure or a pending request settles without moving. |
| UpdateEngine.Engine.CommitJournal | Source/Port/Reference-Impl/mbedOS/Update/pal_plat_update.cpp:1238-1255 | It empties the overflow buffer and issues exactly one journal commit. |
| UpdateEngine.Engine.CommitEnter | Source/Port/Reference-Impl/mbedOS/Update/pal_plat_update.cpp:1209-1271 | From the start to Done, the requests are GetInfo, then at most one residual unit, then Commit. FINALIZE fires only in Done. |
| UpdateEngine.Engine.HashStep | Source/Port/Reference-Impl/mbedOS/Update/pal_plat_update.cpp:514-604 | It initialises the volume manager, then adds the metadata volume, then reads 32 bytes at the SHA offset into the caller's buffer. Done signals GETACTIVEHASH and Error signals ERROR. |
| UpdateEngine.Engine.HashVolumeManager | Source/Port/Reference-Impl/mbedOS/Update/pal_plat_update.cpp:516-540 | It initialises the volume manager unless it is ready. It moves one state forward with no event and nothing pending, or settles without moving. The buffer is untouched. |
| UpdateEngine.Engine.HashStorageDriver | Source/Port/Reference-Impl/mbedOS/Update/pal_plat_update.cpp:542-575 | Adding the header volume and initialising its driver once moves one state forward, or settles. The buffer is untouched. |
| UpdateEngine.Engine.HashReadDigest | Source/Port/Reference-Impl/mbedOS/Update/pal_plat_update.cpp:577-592 | Reading the digest moves to Done with bufferLength 32, or settles without moving. |
| UpdateEngine.Engine.HashEnter | Source/Port/Reference-Impl/mbedOS/Update/pal_plat_update.cpp:509-606 | A synchronous failure returns a PAL failure code and signals nothing. Done leaves 32 bytes in the buffer. The state never moves backwards. |
| UpdateEngine.Engine.JournalCallback | Source/Port/Reference-Impl/mbedOS/Update/pal_plat_update.cpp:275-315 | A RESET opcode is ignored. Otherwise the active machine (Setup for NONE) advances with the status and is re-entered. A failure leaves it in Error with ERROR signalled. A success moves it forward. GetActiveHash is not driven. |
| UpdateEngine.Engine.MtdCallback | Source/Port/Reference-Impl/mbedOS/Update/pal_plat_update.cpp:443-447 | The completion is dropped, and no request is issued. |
| UpdateEngine.Engine.JournalResumeSetup | Source/Port/Reference-Impl/mbedOS/Update/pal_plat_update.cpp:284-292 | For NONE and SETUP: a negative status leaves Setup in Error with exactly ERROR signalled. Otherwise Setup moves forward. |
| UpdateEngine.Engine.JournalResumeRead | Source/Port/Reference-Impl/mbedOS/Update/pal_plat_update.cpp:295-298 | For READ: a negative status leaves Read in Error with exactly ERROR signalled. Otherwise Read moves forward. |
| UpdateEngine.Engine.JournalResumeWrite | Source/Port/Reference-Impl/mbedOS/Update/pal_plat_update.cpp:300-303 | For WRITE: the same for the Write machine, re-entered with the status. |
| UpdateEngine.Engine.JournalResumeCommit | Source/Port/Reference-Impl/mbedOS/Update/pal_plat_update.cpp:305-308 | For COMMIT: the same for the Commit machine. |
| UpdateEngine.Engine.ResumeSetup | Source/Port/Reference-Impl/mbedOS/Update/pal_plat_update.cpp:455-464 | Setup advances with the status and re-enters. A synchronous failure is fed back through Advance. ERROR is signalled exactly when Setup ends in Error. |
| UpdateEngine.Engine.VolumeManagerCallback | Source/Port/Reference-Impl/mbedOS/Update/pal_plat_update.cpp:449-480 | As written. During Setup it resumes Setup. During GetActiveHash it re-enters Setup, so GETACTIVEHASH is never signalled and the hash state stays put or becomes Error. |
| UpdateEngine.Engine.ResumeSetupDuringHash | Source/Port/Reference-Impl/mbedOS/Update/pal_plat_update.cpp:465-476 | As written, the GetActiveHash branch runs Setup. No GETACTIVEHASH event is signalled, and the hash state stays put or becomes Error. |
| UpdateEngine.Engine.VolumeManagerCallbackResumingHash | Source/Port/Reference-Impl/mbedOS/Update/pal_plat_update.cpp:465-476 | Corrected. During GetActiveHash a failing status puts the hash machine in Error with ERROR signalled. A success resumes it; if the resumed machine fails synchronously it is set to Error and re-entered, as :471-475 do. It then ends in Error exactly when it signals ERROR, and in Done exactly when it signals GETACTIVEHASH, with 32 bytes in the buffer. |
| UpdateEngine.Engine.InitApi | Source/Port/Reference-Impl/mbedOS/Update/pal_plat_update.cpp:259-264 | It signals INIT and returns PAL_SUCCESS. |
| UpdateEngine.Engine.SetHeader | Source/Port/Reference-Impl/mbedOS/Update/pal_plat_update.cpp:794-813 | The stored header becomes BuildHeader of the details, and the result is PAL_SUCCESS. |
| UpdateEngine.Engine.ReserveSpace | Source/Port/Reference-Impl/mbedOS/Update/pal_plat_update.cpp:816-825 | It runs Setup from the start. It never ends in Error, and it signals at most PREPARE. |
| UpdateEngine.Engine.Write | Source/Port/Reference-Impl/mbedOS/Update/pal_plat_update.cpp:1030-1039 | It runs Write on the chunk from the start. On Done the overflow buffer holds the chunk's unlogged tail. |
| UpdateEngine.Engine.ReadToBuffer | Source/Port/Reference-Impl/mbedOS/Update/pal_plat_update.cpp:1152-1177 | It starts in SkipMetadata, and reads the header first, unless Read was already the active machine. It sets bufferLength to 0 before reading. A completed read satisfies ReadAccounted against the remaining budget, as in ReadEnter. |
| UpdateEngine.Engine.Flush | Source/Port/Reference-Impl/mbedOS/Update/pal_plat_update.cpp:1273-1279 | It runs Commit from the start. On Done it has flushed a non-empty overflow buffer as one padded unit before committing. |
| UpdateEngine.Engine.GetActiveHash | Source/Port/Reference-Impl/mbedOS/Update/pal_plat_update.cpp:608-616 | It runs the hash machine from the start. On Done the caller's buffer holds 32 bytes. |
| RtosCommon.FirstFree | Source/Port/Reference-Impl/mbedOS/RTOS/pal_plat_rtos.cpp:300-308 | It gives the lowest index whose slot is not initialized, or None when every slot is initialized. |
| RtosCommon.SysTickMicroSec | Source/Port/Reference-Impl/mbedOS/RTOS/pal_plat_rtos.c:236-241 | Without uint64 overflow, the result is floor(us * f / 10^6). |
| RtosCommon.SysMilliSecTick | Source/Port/Reference-Impl/mbedOS/RTOS/pal_plat_rtos.c:243-247 | Without uint64 overflow, the result is floor(1000 * ticks / f). |
| RtosCommon.TicksRoundTripBounded | Source/Port/Reference-Impl/mbedOS/RTOS/pal_plat_rtos.c:236-247 | Microseconds converted to ticks and back to milliseconds never exceed us / 1000. |
| RtosCommon.TwoSecondsRoundTrip | Source/Port/Reference-Impl/mbedOS/RTOS/pal_plat_rtos.c:236-247 | At every tick frequency, 2 000 000 us is 2f ticks and converts back to exactly 2000 ms. |
| RtosCpp.PlatSpecificPriority | Source/Port/Reference-Impl/mbedOS/RTOS/pal_plat_rtos.cpp:99-132 | Idle to Realtime map into 1..48 on the CMSIS steps. Anything else maps to -1 (osPriorityError). |
| RtosCpp.PalGenericPriority | Source/Port/Reference-Impl/mbedOS/RTOS/pal_plat_rtos.cpp:135-168 | The result is always a PAL priority, and every value other than 1, 8, 16, 24, 32, 40 and 48 gives PAL_osPriorityError. |
| RtosCpp.PriorityRoundTrip | Source/Port/Reference-Impl/mbedOS/RTOS/pal_plat_rtos.cpp:99-168 | All eight PAL priorities, Error included, survive the trip to CMSIS and back. |
| RtosCpp.PlatPriorityRoundTrip | Source/Port/Reference-Impl/mbedOS/RTOS/pal_plat_rtos.cpp:99-168 | The eight CMSIS values the map produces survive the trip back and forth. |
| RtosCpp.PlatSpecificPriorityMonotone | Source/Port/Reference-Impl/mbedOS/RTOS/pal_plat_rtos.cpp:103-129 | A higher PAL priority maps to a strictly higher CMSIS priority. |
| RtosCpp.Freed | Source/Port/Reference-Impl/mbedOS/RTOS/pal_plat_rtos.cpp:187-190 | A stack is freed exactly when the slot's stack_mem is not NULL. |
| RtosCpp.DefaultSlotAsWritten | Source/Port/Reference-Impl/mbedOS/RTOS/pal_plat_rtos.cpp:171-199 | As written. The slot becomes uninitialized with a NULL id, but stack_mem keeps the freed pointer. |
| RtosCpp.StaleStackFreedTwice | Source/Port/Reference-Impl/mbedOS/RTOS/pal_plat_rtos.cpp:171-199 | A slot is cleaned, claimed again, and cleaned again: the same stack is freed a second time. |
| RtosCpp.DefaultSlot | Source/Port/Reference-Impl/mbedOS/RTOS/pal_plat_rtos.cpp:171-199 | Corrected. The slot is uninitialized, with NULL id, store, function, arguments and stack. Its index and stack size are 0, and its priority is the CMSIS value of PAL_osPriorityError. |
| RtosCpp.CleanedSlotFreesNothing | Source/Port/Reference-Impl/mbedOS/RTOS/pal_plat_rtos.cpp:171-199 | With the correction, cleaning a slot that was claimed after a cleanup frees nothing. |
| RtosCpp.FindThread | Source/Port/Reference-Impl/mbedOS/RTOS/pal_plat_rtos.cpp:367-374 | It gives the first slot whose threadID equals the id, or None when there is no such slot. |
| RtosCpp.ThreadTable.constructor | Source/Port/Reference-Impl/mbedOS/RTOS/pal_plat_rtos.cpp:60 | The table starts zero-initialised. |
| RtosCpp.ThreadTable.ThreadCleanUp | Source/Port/Reference-Impl/mbedOS/RTOS/pal_plat_rtos.cpp:171-215 | As written. A NULL table or an index out of range changes nothing. Otherwise only that slot changes, to DefaultSlotAsWritten: its stack is freed if it has one, and the freed pointer stays in the slot. |
| RtosCpp.ThreadTable.ThreadCleanUpResettingStack | Source/Port/Reference-Impl/mbedOS/RTOS/pal_plat_rtos.cpp:187-190 | Corrected. The same, except that the slot becomes DefaultSlot, with its stack pointer reset to NULL. |
| RtosCpp.ThreadTable.StaleStackScenario | Source/Port/Reference-Impl/mbedOS/RTOS/pal_plat_rtos.cpp:171-412 | As written. Terminate the thread in slot i. Then create a thread whose malloc fails, which claims slot i again. Then terminate slot i. The free log grows by the same stack twice. |
| RtosCpp.ThreadTable.ResetStackScenario | Source/Port/Reference-Impl/mbedOS/RTOS/pal_plat_rtos.cpp:187-190 | Corrected. Cleaning slot i, failing a create that claims it, and cleaning it again frees its stack once. |
| RtosCpp.ThreadTable.RTOSInitialize | Source/Port/Reference-Impl/mbedOS/RTOS/pal_plat_rtos.cpp:225-241 | It zeroes the table and binds slot 0, initialized, to the running thread. Only slot 0 is initialized afterwards. |
| RtosCpp.ThreadTable.ClaimFirstFree | Source/Port/Reference-Impl/mbedOS/RTOS/pal_plat_rtos.cpp:300-308 | It marks the lowest free slot initialized and returns its index. With no free slot it returns the table size and changes nothing. |
| RtosCpp.ThreadTable.ThreadCreate | Source/Port/Reference-Impl/mbedOS/RTOS/pal_plat_rtos.cpp:287-359 | The argument checks give INVALID_ARGUMENT with the table untouched. With no free slot it gives RTOS_RESOURCE with nothing changed. A failed malloc gives RTOS_RESOURCE and leaves the claimed slot initialized. A NULL osThreadNew gives GENERIC_FAILURE and PAL_INVALID_THREAD. It frees the new stack and resets the slot as written, so the freed pointer stays in it. Otherwise the slot holds the new thread and the id is the slot index. |
| RtosCpp.ThreadTable.ThreadGetId | Source/Port/Reference-Impl/mbedOS/RTOS/pal_plat_rtos.cpp:361-377 | It returns the index of the first slot bound to the running OS thread, or PAL_INVALID_THREAD. |
| RtosCpp.ThreadTable.ThreadTerminate | Source/Port/Reference-Impl/mbedOS/RTOS/pal_plat_rtos.cpp:379-412 | As written. An index out of range gives INVALID_ARGUMENT, the running thread gives RTOS_TASK, and anything else gives SUCCESS with PAL_INVALID_THREAD, even when the OS refused from an ISR. The slot is cleaned, as ThreadCleanUp does it, only if it was initialized and the OS did not refuse. |
| RtosCpp.ThreadTable.ThreadTerminateReportingIsr | Source/Port/Reference-Impl/mbedOS/RTOS/pal_plat_rtos.cpp:396-404 | Corrected. An osErrorISR refusal returns PAL_ERR_RTOS_ISR and leaves the slot intact. The cleanup is otherwise as written. |
| RtosC.DefaultSlot | Source/Port/Reference-Impl/mbedOS/RTOS/pal_plat_rtos.c:117-139 | The slot is uninitialized, with priority PAL_osPriorityError and NULL pointers and sizes. The C port keeps threadID. |
| RtosC.TranslateCmsisError | Source/Port/Reference-Impl/mbedOS/RTOS/pal_plat_rtos.c:49-50 | A CMSIS error never translates to PAL_SUCCESS, and lands below PAL_ERR_RTOS_ERROR_BASE. The six errors osError to osErrorISR land on the six codes just below it. |
| RtosC.CmsisTranslationInjective | Source/Port/Reference-Impl/mbedOS/RTOS/pal_plat_rtos.c:49-50 | Distinct CMSIS statuses translate to distinct PAL codes. |
| RtosC.FindLive | Source/Port/Reference-Impl/mbedOS/RTOS/pal_plat_rtos.c:359-366 | It gives the first initialized slot bound to the id, or None when there is none. |
| RtosC.LiveIds | Source/Port/Reference-Impl/mbedOS/RTOS/pal_plat_rtos.c:204-211 | The ids of initialized slots. Every listed id belongs to a live slot, there are at most as many as slots, and the list is empty when no slot is live. |
| RtosC.LiveIdsComplete | Source/Port/Reference-Impl/mbedOS/RTOS/pal_plat_rtos.c:204-211 | The id of every initialized slot is listed. |
| RtosC.LiveIdsInTableOrder | Source/Port/Reference-Impl/mbedOS/RTOS/pal_plat_rtos.c:204-211 | The ids of the first k slots form a prefix of the list, so the list follows the table order. |
| RtosC.TerminateScan | Source/Port/Reference-Impl/mbedOS/RTOS/pal_plat_rtos.c:324-349 | The scan stops at a live slot with the id. A stale slot with the id nulls the id, and the scan goes on comparing against NULL. |
| RtosC.TerminateScanNoMatch | Source/Port/Reference-Impl/mbedOS/RTOS/pal_plat_rtos.c:324-349 | With no slot holding the id, nothing is found and the id is kept. |
| RtosC.TerminateScanStaleId | Source/Port/Reference-Impl/mbedOS/RTOS/pal_plat_rtos.c:341-344 | A stale match, with no live slot for the id or for NULL, finds nothing and nulls the id. |
| RtosC.TerminateScanNullId | Source/Port/Reference-Impl/mbedOS/RTOS/pal_plat_rtos.c:324-349 | Once the id is NULL, the scan can only find live slots whose id is NULL. |
| RtosC.TerminateScanLive | Source/Port/Reference-Impl/mbedOS/RTOS/pal_plat_rtos.c:328-339 | The first live slot with the id, with no earlier slot holding it, is the one found. |
| RtosC.ThreadTable.constructor | Source/Port/Reference-Impl/mbedOS/RTOS/pal_plat_rtos.c:182-200 | The table starts zero-initialised and not yet initialized. |
| RtosC.ThreadTable.ThreadCleanUp | Source/Port/Reference-Impl/mbedOS/RTOS/pal_plat_rtos.c:146-157 | A NULL table or an index out of range changes nothing. Otherwise only that slot is reset. |
| RtosC.ThreadTable.RTOSInitialize | Source/Port/Reference-Impl/mbedOS/RTOS/pal_plat_rtos.c:182-200 | The first call marks every slot uninitialized. Later calls return PAL_SUCCESS without touching the table. |
| RtosC.ThreadTable.RTOSDestroy | Source/Port/Reference-Impl/mbedOS/RTOS/pal_plat_rtos.c:202-213 | It terminates the threads of all live slots, in table order: the id of every live slot is among those terminated. It resets those slots and leaves every slot uninitialized. |
| RtosC.ThreadTable.FindFirstFree | Source/Port/Reference-Impl/mbedOS/RTOS/pal_plat_rtos.c:265-272 | The scan's result is FirstFree of the table, and it claims nothing. |
| RtosC.ThreadTable.ThreadCreate | Source/Port/Reference-Impl/mbedOS/RTOS/pal_plat_rtos.c:254-310 | A NULL threadID, function or stackPtr, a zero stackSize or a priority above Realtime gives INVALID_ARGUMENT with no change. With no free slot it gives RTOS_RESOURCE with no change. Otherwise the lowest free slot gets the store, function, argument, index, priority and stack, and is marked initialized. A NULL thread id resets it to defaults and gives GENERIC_FAILURE. |
| RtosC.ThreadTable.ThreadTerminate | Source/Port/Reference-Impl/mbedOS/RTOS/pal_plat_rtos.c:319-352 | A NULL or zero id gives INVALID_ARGUMENT. A live match whose termination gives osOK is cleaned, with the id nulled. A failed termination returns the translated code and leaves the slot intact. A stale match only nulls the id. |
| RtosC.ThreadTable.ThreadGetLocalStore | Source/Port/Reference-Impl/mbedOS/RTOS/pal_plat_rtos.c:354-368 | It returns the store of the first live slot bound to the running thread, or NULL. |
| UnityToJunit.StartMarker | Test/Scripts/unity_to_junit.py:37 | The start marker is `<***` + name + `***>`. |
| UnityToJunit.EndMarker | Test/Scripts/unity_to_junit.py:38 | The end marker is `</***` + name + `***>`. |
| UnityToJunit.FindAllOccurs | Test/Scripts/unity_to_junit.py:37-38 | re.finditer: every offset found is an occurrence of the marker. |
| UnityToJunit.FindAllAfter | Test/Scripts/unity_to_junit.py:37-38 | Every offset found lies at or after the search start. |
| UnityToJunit.FindAllSpaced | Test/Scripts/unity_to_junit.py:37-38 | Consecutive offsets ascend and do not overlap: each next one starts after the previous marker ends. |
| UnityToJunit.FindAllComplete | Test/Scripts/unity_to_junit.py:37-38 | No occurrence is missed before the first, after the last, or anywhere when none is found. |
| UnityToJunit.FindAllGap | Test/Scripts/unity_to_junit.py:37-38 | No occurrence is missed between two consecutive ones found. |
| UnityToJunit.Slice | Test/Scripts/unity_to_junit.py:49 | A Python slice with clamped bounds. It is empty when the end comes before the start. |
| UnityToJunit.Pairs | Test/Scripts/unity_to_junit.py:48-50 | zip of start and end offsets: the i-th start pairs with the i-th end. |
| UnityToJunit.FirstUnbalanced | Test/Scripts/unity_to_junit.py:43-45 | It gives a tag name whose start and end counts differ, or None exactly when every name is balanced. |
| UnityToJunit.InsertByOffset | Test/Scripts/unity_to_junit.py:53 | Insertion keeps the same tags, counted with multiplicity. |
| UnityToJunit.InsertSorted | Test/Scripts/unity_to_junit.py:53 | Insertion into a list sorted by offset keeps it sorted. |
| UnityToJunit.SortByOffset | Test/Scripts/unity_to_junit.py:53 | The result is sorted by offset and is a permutation of the input. |
| UnityToJunit.Strip | Test/Scripts/unity_to_junit.py:56 | The offsets are dropped, keeping the order, names and contents. |
| UnityToJunit.ExtractFailsIffUnbalanced | Test/Scripts/unity_to_junit.py:43-45 | extract_tags raises exactly when some tag name has different numbers of start and end markers. |
| UnityToJunit.ExtractOrdered | Test/Scripts/unity_to_junit.py:52-56 | On success the tags are all the marker pairs, sorted by start offset, with the offsets stripped. |
| UnityToJunit.TagContentBetweenMarkers | Test/Scripts/unity_to_junit.py:37-50 | A pair's content is the text between the end of its start marker and the start of its end marker. The log there reads start marker, content, end marker. |
| UnityToJunit.AppendPairs | Test/Scripts/unity_to_junit.py:48-50 | The zip loop appends exactly the pairs of one tag name. |
| UnityToJunit.ExtractTags | Test/Scripts/unity_to_junit.py:21-60 | The loop computes Extract of the log, the specification the lemmas above describe. |
| UnityToJunit.LineEnd | Test/Scripts/unity_to_junit.py:63 | `.` does not cross a newline: the first newline at or after a position, or the end. |
| UnityToJunit.GreedySplit | Test/Scripts/unity_to_junit.py:63 | The greedy groups: among all matches at the start, the last possible `, ` and then the last possible `)`. None when no match exists. |
| UnityToJunit.ParseName | Test/Scripts/unity_to_junit.py:63-67 | There is a result exactly when the text matches `prefix(.*), (.*)\)` from its start. |
| UnityToJunit.GetTestGroupAndName | Test/Scripts/unity_to_junit.py:62-67 | It gives a group and name exactly when `TEST(…, …)` matches. Otherwise it raises "Erorr parsing test group and name". |
| UnityToJunit.GetIgnoredTestGroupAndName | Test/Scripts/unity_to_junit.py:69-74 | The same for `IGNORE_TEST(…, …)`. |
| UnityToJunit.ParseNameRoundTrip | Test/Scripts/unity_to_junit.py:62-74 | "TEST(g, n)" parses to (g, n) when n holds no `)` or `, ` and neither holds a newline. |
| UnityToJunit.TrailingTextJoinsName | Test/Scripts/unity_to_junit.py:63 | "TEST(g, n) x)" parses to ("g", "n) x"): the match is not anchored at the end, and the groups are greedy. |
| UnityToJunit.CountStatus | Test/Scripts/unity_to_junit.py:127-133 | The number of tests with a status never exceeds the number of tests. |
| UnityToJunit.CountStatusPositive | Test/Scripts/unity_to_junit.py:127-133 | The count is positive exactly when some test has that status. |
| UnityToJunit.HandledResultsSkipped | Test/Scripts/unity_to_junit.py:91-94 | Once a result is handled, further UnityResult tags add nothing. |
| UnityToJunit.FirstResultOnly | Test/Scripts/unity_to_junit.py:88-94 | A UnityTest followed by several results records one entry, with the first result. |
| UnityToJunit.CollectCounts | Test/Scripts/unity_to_junit.py:83-97 | Each UnityIgnoredTest adds one IGNORE entry. Each UnityTest adds at most one entry, plus at most one for results before any test. |
| UnityToJunit.CollectTests | Test/Scripts/unity_to_junit.py:76-101 | The loop computes CollectFrom of the tags. It raises on the first unparsable name. |
| UnityToJunit.TalliesBounded | Test/Scripts/unity_to_junit.py:127-135 | PASS + FAIL + IGNORE never exceeds the number of tests. |
| UnityToJunit.TextSummary | Test/Scripts/unity_to_junit.py:118-151 | The total, PASS, FAIL and IGNORE counts are those of the list. The final status is FAIL exactly when there are no tests or one FAIL. A result recorded before any test raises the IndexError of `""[0]`. |
| UnityToJunit.JUnitReport | Test/Scripts/unity_to_junit.py:103-116 | tests is the number of tests, with one testcase each: classname `package.group`, the name, a failure only for FAIL and skipped only for IGNORE. A result recorded before any test raises the same IndexError. |
| MbedDevices.FirstAvailable | Test/Scripts/mbed.py:48-51 | The lowest index of an available entry with that platform name, or None when there is none. |
| MbedDevices.PyIndex | Test/Scripts/mbed.py:65 | Python list indexing. A negative index counts from the end. The index is out of range exactly when index ≥ n or index < -n. |
| MbedDevices.DeviceManager.constructor | Test/Scripts/mbed.py:26-34 | Every listed device is kept and marked Available. |
| MbedDevices.DeviceManager.GetDevice | Test/Scripts/mbed.py:42-62 | It returns the first available match's index, mount point and serial port, and marks only that entry unavailable. Otherwise it returns (-1, None, None) and nothing changes. |
| MbedDevices.DeviceManager.FreeDevice | Test/Scripts/mbed.py:64-70 | An index out of range raises IndexError. An in-use entry becomes Available, and only it changes. An already free entry changes nothing. |
| MbedDevices.GetThenFreeRestores | Test/Scripts/mbed.py:42-70 | get_device followed by free_device of the returned index restores the table. |
| MbedDevices.ClaimedNotHandedOutAgain | Test/Scripts/mbed.py:48-57 | After a claim, the next get_device for the platform does not return the same entry. |
| MbedDevices.IsValidIpCorrect | Test/Scripts/mbed.py:242-243 | It accepts exactly four dot-separated groups of 1 to 3 ASCII digits, optionally followed by one final newline (Python's `$`). |
| MbedDevices.IsValidIp | Test/Scripts/mbed.py:242-243 | An accepted address has 7 to 16 characters. It starts with a digit and ends with a digit or a newline. IsValidIpCorrect gives the exact set. |
| MbedDevices.JoinedGroupsAccepted | Test/Scripts/mbed.py:242-243 | Any four groups of 1 to 3 digits joined by dots are accepted. |
| MbedDevices.JoinedGroupsNewlineAccepted | Test/Scripts/mbed.py:242-243 | The same with a trailing newline. |
| MbedDevices.NoRangeCheck | Test/Scripts/mbed.py:242-243 | "999.999.999.999" is accepted, because no group is checked against 255. |
| MbedDevices.FourDigitGroupRefused | Test/Scripts/mbed.py:242-243 | "1234.1.1.1" is refused. |

## Left out

**Storage stack and platform**

- The storage volume manager, the MTD drivers and the flash journal are not modelled. They are the scripted `UpdateStorage.Storage` environment, which follows the journal's contract: a log shorter than one program unit gets SMALL_LOG_REQUEST. A completed log writes the largest whole number of program units the request holds, and returns that count (`LoggedCount`). The overflow buffer's tail fits the memcpy at pal_plat_update.cpp:1011-1012 only under this assumption.
- The flash-journal CRC is an uninterpreted function.
- The bytes that reads copy are not modelled; only their lengths are. This covers the image chunk, the header re-read at pal_plat_update.cpp:1089 and the SHA-256 read by GetActiveHash.
- The PAL error values come from pal_errors.h, which is not part of this model. They are distinct negative placeholders. The journal and driver codes follow the flash-journal and CMSIS driver headers.
- pal_rtos.h is not part of this model. The priority enumerators are taken as Idle = -3 to Realtime = 3 and Error = 0x84.

**Update port**

- UpdateEngine.Engine.ReadChunk, UpdateEngine.Engine.ReadStep, UpdateEngine.Engine.ReadEnter and UpdateEngine.Engine.ReadToBuffer follow the clamp as written. The corrected clamp, ReadClamp, is stated and proved only as a pure function.
- UpdateEngine.Engine.ReadAdvanceWith: the asynchronous completion of a read fills bufferLength with the raw status. As in the code, it neither clamps to the bytes remaining nor decrements them.
- UpdateEngine.Engine.CommitStep:
  - The residual is padded with bytes from the write context's fragment, where the code leaves its stale pointer. The model uses the fragment left over from the last Write.
  - The contents of a padded unit are stated only by FillUnitLayout.
- UpdateEngine.Engine.WriteHeaderResidual: the copy at pal_plat_update.cpp:958 reads from outside the header; see Findings. The engine copies header bytes rc..56, which is evidently intended (StageHeader), because bytes outside the header object are not modelled. The requirement WriteEntryOk, which says the copy fits the one-unit buffer, stands in for the unchecked memcpy bound at :1011-1012.
- UpdateEngine.Engine.Write:
  - It requires Setup to have allocated the overflow buffer; the code would copy through a NULL pointer.
  - It requires a chunk under 2^31 bytes, since fragment_size is an int32.
- UpdateEngine.Engine.SetupFinish: a failed malloc of the overflow buffer is not modelled.
- UpdateEngine.Engine.SetupFinish: the buffer from `malloc` holds indeterminate bytes; the model fills it with zeros. No behaviour depends on this, because FillUnit and CopyToUnit write every byte before it is logged.
- A Write aborted in Error keeps a stale overflow size, as the code does. The model does not state what the next Write does with it.
- The hash buffer's capacity is not checked, as in the code.
- pal_plat_imageDeInit frees the buffer and holds no other logic, so it is left out.
- Image ids and fragment offsets are stored by the code but never read, so they are left out.
- The compiled-out callback handler (pal_plat_update.cpp:322-440) and the NOT_IMPLEMENTED stubs (:489-507, :619-628) are dead code and are left out.
- pal_update.c only delegates to the pal_plat_image* functions. pal_init.c is a reference count behind macros that are not part of this model.

**RTOS ports**

- The .cpp versions of RTOSDestroy and GetLocalStore are not modelled; only the C versions are. The .cpp RTOSDestroy only returns success.
- The CMSIS control block, cb_mem, the thread name and attribute bits, and g_randInitiated are not modelled.
- PAL_UNIQUE_THREAD_PRIORITY bookkeeping is compiled out by default and is not modelled.
- threadFunctionWrapper, and the timer, mutex, semaphore, pool, message-queue, delay, reboot and atomic-increment wrappers, are thin CMSIS calls or concurrency primitives. They include the error swallowed at pal_plat_rtos.c:657.
- RtosCpp.ThreadTable.ThreadCleanUp, ThreadCreate and ThreadTerminate keep the freed stack pointer, as the code does. Only ThreadCleanUpResettingStack and ResetStackScenario use the corrected reset.
- RtosC.TerminateScanNullId: what happens after a stale match is stated only for live slots whose id is NULL. In mbed OS a thread id is the address of a control block, so a stale id never clashes with a live one.

**Test scripts**

- UnityToJunit.CollectTests: the "Unknown tag" branch cannot be reached, because the tag names are an enumeration.
- UnityToJunit.TextSummary and UnityToJunit.JUnitReport: the XML text, the tabulate layout and the file writes are modelled as the structured values Suite and Summary.
- MbedDevices.DeviceManager.GetDevice: the `found` flag only selects which message is printed, and printing is left out.
- A failed import of mbed_lstools and the device listing are not modelled; the list is the constructor's argument.
- dump_all_devices, the MBED class and perform_test_mbedOS.py deal with serial ports, files and processes, so they are left out.

## Findings

| source | as written | input that shows it | evidently intended | confidence | as-written member | corrected member |
|---|---|---|---|---|---|---|
| Source/Port/Reference-Impl/mbedOS/Update/pal_plat_update.cpp:465-476 | The volume-manager callback re-enters the Setup machine during GetActiveHash. | GetActiveHash while the volume manager is not ready, then its initialise completion. The hash machine never resumes, and GETACTIVEHASH is never signalled. | Resume the hash machine from the state it waited in. | not executed | UpdateEngine.Engine.VolumeManagerCallback | UpdateEngine.Engine.VolumeManagerCallbackResumingHash |
| Source/Port/Reference-Impl/mbedOS/Update/pal_plat_update.cpp:1119-1127 | When a synchronous read returns more than remains, the remainder is reported but numberOfByesRemain is not set to 0. | 2 bytes remain, and two reads each return 8. Together they report 4 bytes, 2 of them past the image end. | Take the reported bytes off the remainder, so padding is never handed out. | not executed | UpdateMachines.OverReadRepeatsTail | UpdateMachines.ReportedTotalBounded |
| Source/Port/Reference-Impl/mbedOS/RTOS/pal_plat_rtos.cpp:187-190 | setDefaultThreadValues frees stack_mem but leaves the pointer in the slot. | Terminate a thread, then call osThreadCreate when malloc fails (the slot stays claimed), then terminate that index. The first stack is freed twice. | Set stack_mem to NULL after freeing it. | not executed | RtosCpp.ThreadTable.StaleStackScenario | RtosCpp.ThreadTable.ResetStackScenario |
| Source/Port/Reference-Impl/mbedOS/RTOS/pal_plat_rtos.cpp:396-404 | The PAL_ERR_RTOS_ISR status is overwritten by PAL_SUCCESS, and *threadID is invalidated. | Terminate from an interrupt handler, where osThreadTerminate gives osErrorISR. The call reports success, yet the thread lives on. | Return PAL_ERR_RTOS_ISR and keep the id. | not executed | RtosCpp.ThreadTable.ThreadTerminate | RtosCpp.ThreadTable.ThreadTerminateReportingIsr |
| Source/Port/Reference-Impl/mbedOS/Update/pal_plat_update.cpp:958 | The unlogged header bytes are copied from `&pal_pi_mbed_firmware_header + rc`, which advances by rc whole headers. | A journal with a 32-byte program unit logs 32 header bytes. The other 24 are then read from 1792 bytes past the header, outside the object. | Copy from byte rc of the header: `(uint8_t*)&pal_pi_mbed_firmware_header + rc`. | not executed | FirmwareHeader.ResidualCopyWithUnit32 | UpdateEngine.Engine.StageHeader |
