# Verified models of the IoT samples

Dafny models of the parts of this repository that compute, keep state or follow a protocol, with the
properties that the code relies on. `dafny verify dfyconfig.toml` checks the whole project (Dafny 4.11).

| part | files | what is modelled |
|---|---|---|
| M5Stack firmware, pressure sensor | `Qmp6988.dfy`, `FixedWidth.dfy` | unpacking of the calibration block and the fixed-point compensation, on 32-bit and 64-bit integer types whose range every operation must respect |
| M5Stack firmware, checksums | `Gf2.dfy`, `Crc.dfy`, `ConfigImage.dfy` | the two bit-serial CRCs against polynomial division over GF(2), and the saved configuration file they protect |
| M5Stack firmware, boot | `ConfigBoot.dfy`, `ConfigRecord.dfy` | precedence of SD card and flash, staging and loading of certificates, with the faults of mounting, opening, reading, writing, hashing and memory; the bytes of the parsed configuration |
| M5Stack firmware, configuration file | `IniText.dfy`, `IniParser.dfy`, `IniPrinter.dfy` | the one-pass parser from the bytes that `fgets` delivers to the configuration record |
| M5Stack firmware, MQTT | `MqttAssembly.dfy`, `MqttDelivery.dfy`, `MqttCoverage.dfy`, `MqttTopics.dfy` | reassembly of fragmented commands in static buffers, and the topics of subscription and responses |
| M5Stack firmware, SHT3x sensor | `Sht3x.dfy` | the measurement state machine and its frames |
| File agent | `FileAgent.dfy`, `DeviceWait.dfy`, `ParService.dfy`, `AgentStore.dfy` | the dequeue thread, the command worker and the device that waits for them, as interleavings of atomic actions; the store of pre-authenticated requests (PARs), by itself and under the two threads |
| Archive of a domain | `Archive.dfy` | planning of half-open windows, one run with its failures, and histories of runs over one checkpoint |
| Java samples, streaming | `Streaming.dfy` | start, stop and the streaming loop as interleavings of atomic steps |

Code that changes things in place is a class or a loop proved against a function of its old state; the
theorems are about that function. `Wrappers.dfy` holds `Option` and `Result`.

Nine statements that one might expect are false of the code in general. For each there is an input that shows
it, and a theorem that says exactly when it does hold:

- The conversion of the temperature to `int16_t` loses some reading for every calibration
  (`Qmp6988.NarrowingAlwaysLosesSomeReading`); it is lossless exactly between two thresholds fixed by the
  calibration (`Qmp6988.NarrowingExactBetweenThresholds`), which `Qmp6988.FindThreshold` computes.
- The bounds checks of the MQTT handler do not keep the copy inside the payload buffer when the sum of offset
  and length overflows (`MqttAssembly.OverflowPassesChecks`); a checked copy is inside exactly when the sum is
  an `int` (`MqttAssembly.CopyInBoundsIffSumFits`). For every other event all writes of the handler are inside.
- An assembled MQTT command may contain bytes that never arrived, because the handler counts bytes
  (`MqttCoverage.CountingIsNotCoverage`), and a complete one may come from overlapping fragments, because the
  counter wraps (`MqttCoverage.CoverageIsNotDisjointness`); the fragments are disjoint exactly when every byte
  arrived and the count did not overflow (`MqttCoverage.EnqueuedCoveredIffDisjoint`).
- The SHT3x driver may fetch before the measurement under way is over, because a start command that fails to
  be sent still changes the repeatability (`Sht3x.FailedStartShortensWait`); it waits the whole duration
  exactly when the last command asked for at least as long a measurement, or the time is up already
  (`Sht3x.WaitIffNotShortened`).
- For the same reason it may fetch a single-shot measurement twice, or give up a periodic one after one fetch
  (`Sht3x.FailedStartRepeatsSingleShot`, `Sht3x.FailedStartEndsPeriodic`); it treats a measurement by its own
  mode exactly when the last start command, sent or not, agrees with it on single shot
  (`Sht3x.SecondFetchIffLastAskedPeriodic`).
- A certificate on flash may differ from the card's after a successful boot: from any two files of equal size
  that the hash cannot tell apart such a boot is constructed (`ConfigBoot.HashCollisionKeepsStaleCopy`; for
  SHA-256 no such files are known). They are equal exactly when no stale file of the same size has the same
  hash (`ConfigBoot.CertificatesAreTheCards`).
- Archive windows may leave out rows: a day after a retention of 30 days becomes 10
  (`Archive.ShrunkRetentionLosesRow`), or after a run without the dataset (`Archive.UnselectedRunLosesRow`).
  They tile exactly when before each window the checkpoint had drifted on, in runs without the dataset, by what
  the retention had grown (`Archive.TilingIffDriftsMadeUp`); with the dataset in every advancing run, exactly
  when all had the same retention (`Archive.TilingIffRetentionConstant`). A row in the span is lost exactly when
  it lies in more gaps than overlaps (`Archive.RowsArchivedByBalance`).
- Two streaming threads can be in the loop body (`Streaming.OverlappingControllersBreakExclusion`); from a
  reachable state, a start that installs its thread can lead there exactly when a stop is waiting for a thread
  inside the body (`Streaming.InstallUnsafeIffJoiningBody`). One controller never starts at such a moment
  (`Streaming.OneControllerIsAllowed`).
- After a stop call has returned the streaming thread may still dequeue, if another stop call is waiting for it
  (`Streaming.SecondStopReturnsEarly`); all is quiet until the next start exactly when no stop is waiting for a
  thread inside the body (`Streaming.StopQuietIffNoneJoining`).

## Model

| member | source | states |
|---|---|---|
| Qmp6988.UnpackThenPack | samples/C/M5Stack/components/qmp6988/src/qmp6988.c:181-207 | every 25-byte block gives two signed 20-bit and ten signed 16-bit coefficients from which the block can be rebuilt bit by bit, the shared byte 24 included |
| Qmp6988.PackThenUnpack | samples/C/M5Stack/components/qmp6988/src/qmp6988.c:181-207 | every such record is the unpacking of some block; with the row above, unpacking is a bijection |
| Qmp6988.UnpackedFields | samples/C/M5Stack/components/qmp6988/src/qmp6988.c:181-207 | which bytes each of the twelve coefficients is read from, as a signed number: the two halves of byte 24 belong to b00 and a0 |
| Qmp6988.Scale | samples/C/M5Stack/components/qmp6988/src/qmp6988.c:209-221 | scaling overflows neither the 32-bit nor the 64-bit type, and the tight range of each scaled coefficient; which raw coefficient each stands for follows in `RawTemperatureAccuracy` and `RawPressureIsExact` |
| Qmp6988.TemperatureAccuracy | samples/C/M5Stack/components/qmp6988/src/qmp6988.c:226-238 | before narrowing, the integer temperature is the exact rational quadratic rounded down to 1/256 degree, up to 1/1024 of a sixteenth of that unit |
| Qmp6988.RawTemperatureAccuracy | samples/C/M5Stack/components/qmp6988/src/qmp6988.c:209-238 | the same from the raw coefficients a0, a1 and a2 of the block: the integer temperature against the exact quadratic of their linear conversions |
| Qmp6988.TemperatureMonotone | samples/C/M5Stack/components/qmp6988/src/qmp6988.c:226-236 | for every calibration the temperature before narrowing never rises with the raw reading, on the whole 24-bit range, in spite of the three floors |
| Qmp6988.NarrowingExactBetweenThresholds | samples/C/M5Stack/components/qmp6988/src/qmp6988.c:236 | the conversion to int16_t keeps the value if and only if the reading lies between two thresholds fixed by the calibration |
| Qmp6988.FindThreshold | samples/C/M5Stack/components/qmp6988/src/qmp6988.c:236 | either threshold is found by binary search, so a caller can decide from the calibration which readings convert losslessly |
| Qmp6988.NarrowingAlwaysLosesSomeReading | samples/C/M5Stack/components/qmp6988/src/qmp6988.c:236 | for every calibration some 24-bit reading is changed by the conversion |
| Qmp6988.ConvTx | samples/C/M5Stack/components/qmp6988/src/qmp6988.c:226-238 | no product or sum overflows int64_t; the result is the wide temperature of the lemmas above, reduced to 16 bits |
| Qmp6988.SecondOrder | samples/C/M5Stack/components/qmp6988/src/qmp6988.c:249-257 | the three second-order terms never overflow, each within a stated distance of the exact product, and their sum leaves headroom |
| Qmp6988.ThirdOrder | samples/C/M5Stack/components/qmp6988/src/qmp6988.c:259-270 | the three third-order terms never overflow, with the error of each double shift bounded although it is multiplied by a 24-bit reading, and their sum leaves headroom |
| Qmp6988.RawPressureIsExact | samples/C/M5Stack/components/qmp6988/src/qmp6988.c:209-278 | for every block the cubic of the scaled coefficients is the exact cubic of the linear conversions of the nine raw ones, so the accuracy of the pressure holds from the block on |
| Qmp6988.GetPressure | samples/C/M5Stack/components/qmp6988/src/qmp6988.c:240-278 | for every calibration, reading and temperature nothing overflows int64_t, the last cast fits int32_t, and the result is the exact cubic rounded down to 1/16 Pa, up to 1/1024 of that unit |
| Qmp6988.RawReading | samples/C/M5Stack/components/qmp6988/src/qmp6988.c:405-414 | the unsigned subtraction of 2^23 and the cast give the signed 24-bit reading |
| Qmp6988.Sensor.ReadRegisters | samples/C/M5Stack/components/qmp6988/src/qmp6988.c:176-179 | succeeds exactly when every register read does, and then the buffer holds the replies in order |
| Qmp6988.Sensor.GetCalibrationData | samples/C/M5Stack/components/qmp6988/src/qmp6988.c:170-224 | the coefficients become the scaled ones of the block read, in range, or stay as they were when any read fails |
| Qmp6988.Sensor.CalcPressure | samples/C/M5Stack/components/qmp6988/src/qmp6988.c:390-424 | end to end from six registers: the stored pressure and temperature are accurate with respect to the exact polynomials of the raw calibration; the narrowed temperature; nothing stored on a bus error |
| Gf2.DivisionExists | samples/C/M5Stack/components/config_manager/config_manager.c:119-128 | schoolbook long division gives a quotient and a remainder whose product and sum by shift-and-add is the dividend |
| Gf2.DivisionUnique | samples/C/M5Stack/components/config_manager/config_manager.c:119-128 | no other quotient and remainder do, so "the remainder" is well defined |
| Gf2.FeedIsRemainder | samples/C/M5Stack/components/config_manager/config_manager.c:119-128 | a shift register fed bit by bit holds the remainder of the message times x^w with the initial value added in front, for any generator and width |
| Gf2.FeedIsXorThenShifts | samples/C/M5Stack/components/config_manager/config_manager.c:119-128 | adding up to w bits to the register at once and then shifting, as both routines do per byte, equals feeding them one at a time |
| Gf2.WindowInjective | samples/C/M5Stack/components/config_manager/config_manager.c:119-128 | two different windows of at most w bits leave different registers |
| Gf2.BurstDetected | samples/C/M5Stack/components/config_manager/config_manager.c:119-128 | two messages that differ only inside a window of at most w bits, at any bit position, have equal registers only if they are equal |
| Gf2.CodewordIffZero | samples/C/M5Stack/components/sht3x/sht3x.c:186-198 | a message followed by a checksum brings the register to zero exactly when the checksum is its own |
| Crc.Register16IsRemainder | samples/C/M5Stack/components/config_manager/config_manager.c:107-130 | crc16 is division by x^16 + 0x1021 with 0xFFFF added to the first 16 bits |
| Crc.Register16DetectsBurst | samples/C/M5Stack/components/config_manager/config_manager.c:107-130 | buffers of equal length that differ only in a window of 16 bits, not necessarily byte-aligned, never have the same CRC-16 |
| Crc.ComputeCrc16 | samples/C/M5Stack/components/config_manager/config_manager.c:107-130 | the nested loops over 16-bit words compute that remainder; an empty buffer gives 0 |
| Crc.Register8IsRemainder | samples/C/M5Stack/components/sht3x/sht3x.c:110-127 | crc8 is division by x^8 + 0x31 with 0xFF added to the first 8 bits |
| Crc.ComputeCrc8 | samples/C/M5Stack/components/sht3x/sht3x.c:110-127 | the nested loops over bytes compute that remainder |
| Crc.WordIsCodeword | samples/C/M5Stack/components/sht3x/sht3x.c:186-198 | the check of a word against its checksum is a zero test of the register over both |
| Crc.WordDetectsBurst | samples/C/M5Stack/components/sht3x/sht3x.c:186-198 | a burst of up to 8 bits that may reach from the data into the checksum is always noticed |
| ConfigImage.LoadSaved | samples/C/M5Stack/components/config_manager/config_manager.c:135-196 | what was saved loads back byte for byte whatever the padding, or is refused for its version alone |
| ConfigImage.LoadIffSaved | samples/C/M5Stack/components/config_manager/config_manager.c:135-173 | a file loads exactly when it begins with the saved image of a configuration of the current version; so a short one, or one without the magic of every image, is refused; and which error is given when |
| ConfigImage.LowByteFirst | samples/C/M5Stack/components/config_manager/config_manager.c:178-183 | the checksum is stored low byte first, as the processor does |
| ConfigImage.BurstInBodyRejected | samples/C/M5Stack/components/config_manager/config_manager.c:135-196 | a burst of up to 16 bits anywhere in the saved body makes loading fail with the checksum error |
| ConfigBoot.Flash.Copy | samples/C/M5Stack/components/config_manager/config_manager.c:360-412 | chunked copying leaves the whole file, or exactly the prefix read or written before the fault; the old contents are lost as soon as the destination is opened, and kept when the source cannot be |
| ConfigBoot.CopyLeaves | samples/C/M5Stack/components/config_manager/config_manager.c:360-412 | for every fault: whether the destination is touched, which beginning of the source it then holds, and which error is given |
| ConfigBoot.SaveLeaves | samples/C/M5Stack/components/config_manager/config_manager.c:178-196 | for every fault: the stored image is a beginning of the one saved, all of it exactly after a success |
| ConfigBoot.StageErrors | samples/C/M5Stack/components/config_manager/config_manager.c:451-490 | a certificate missing on the card, and an unreadable flash copy of the same size, are errors that write nothing; nothing is copied over an equal file |
| ConfigBoot.Flash.Stage | samples/C/M5Stack/components/config_manager/config_manager.c:451-490 | after a success the certificate on flash has the size and hash of the card's, whether it was copied or not, and no other file has changed |
| ConfigBoot.Flash.EnsureAll | samples/C/M5Stack/components/config_manager/config_manager.c:495-506 | after a success all configured certificates agree with the card together, and the stored configuration is as it was |
| ConfigBoot.Flash.Init | samples/C/M5Stack/components/config_manager/config_manager.c:598-648 | result, configuration, certificate slots and flash after a boot, for every card, flash content and fault |
| ConfigBoot.LoadedIsStored | samples/C/M5Stack/components/config_manager/config_manager.c:511-570 | a slot is filled exactly when its certificate and all before it load, also when a later one fails: with its whole non-empty flash file if configured, else with nothing, or for OTA with the MQTT one |
| ConfigBoot.EnsuredCerts | samples/C/M5Stack/components/config_manager/config_manager.c:495-506 | after a successful staging every configured certificate agrees with the card in size and hash, and the stored configuration is untouched: no stage spoils an earlier one |
| ConfigBoot.EnsureFailsAtFirst | samples/C/M5Stack/components/config_manager/config_manager.c:495-506 | a failed staging fails at one certificate: all before it agree with the card, those behind it and the stored configuration are as they were |
| ConfigBoot.EnsuredValue | samples/C/M5Stack/components/config_manager/config_manager.c:451-506 | what each flash file holds afterwards: its old content if that passed for the card's, else the card's |
| ConfigBoot.LoadCertErrors | samples/C/M5Stack/components/config_manager/config_manager.c:511-545 | which error a certificate that cannot be loaded gives, for every state of the flash and every fault |
| ConfigBoot.BootWithoutUsableCard | samples/C/M5Stack/components/config_manager/config_manager.c:612-638 | a card whose configuration is rejected is as good as none: the boot writes nothing and uses the stored configuration, or returns ESP_ERR_NOT_FOUND without one |
| ConfigBoot.SavedBeforeStaging | samples/C/M5Stack/components/config_manager/config_manager.c:622-641 | with a valid card, whatever fails, its configuration is the one in use, certificates are not touched before it is saved, nor loaded before all of them are in step |
| ConfigBoot.BootBringsInStep | samples/C/M5Stack/components/config_manager/config_manager.c:598-648 | a boot with a valid card that returns ESP_OK leaves configuration and certificates on flash in step with the card, from any flash content |
| ConfigBoot.BootInStep | samples/C/M5Stack/components/config_manager/config_manager.c:598-648 | in that state a boot, with the card or without, writes nothing and uses the same configuration and certificates |
| ConfigBoot.RebootKeepsConfiguration | samples/C/M5Stack/components/config_manager/config_manager.c:598-648 | after an ESP_OK boot with a valid card, a later boot without a card and one with the same card both succeed with the same configuration and certificates and write nothing; no property of the hash is used |
| ConfigBoot.CertificatesAreTheCards | samples/C/M5Stack/components/config_manager/config_manager.c:451-490 | after such a boot the certificate in memory is the flash copy, and that equals the card's if and only if no stale file of equal size and equal hash was there |
| ConfigBoot.HashCollisionKeepsStaleCopy | samples/C/M5Stack/components/config_manager/config_manager.c:451-490 | from any two non-empty files of equal size and hash, a flash and a card are constructed for which a boot returns ESP_OK and leaves the stale one on flash and in memory |
| ConfigRecord.Offsets | samples/C/M5Stack/components/config_manager/include/config_manager.h:27-62 | the offset of each of the 18 members of the structure, from the sizes of those before it |
| ConfigRecord.CertNameIsField | samples/C/M5Stack/components/config_manager/include/config_manager.h:38-62 | the certificate names that staging and loading take from the bytes of the structure are the fields that the parser has read |
| ConfigRecord.RecordInjective | samples/C/M5Stack/components/config_manager/config_manager.c:625 | two structures are equal byte by byte exactly when the configurations are, so memcmp compares configurations |
| ConfigRecord.CardOfIsValid | samples/C/M5Stack/components/config_manager/config_manager.c:347-351 | a parsed configuration is accepted exactly when the version in its bytes is the current one |
| IniText.DecimalReadsBack | samples/C/M5Stack/components/config_manager/config_manager.c:201-207 | a number printed in decimal is read back by atoi and strtoul inside their ranges |
| IniText.NumberOfText | samples/C/M5Stack/components/config_manager/config_manager.c:201-207 | what atoi and strtoul make of white space, a sign, digits and anything behind them, saturation and negation modulo 2^32 included |
| IniText.LinesOfConcat | samples/C/M5Stack/components/config_manager/config_manager.c:245-247 | reading whole lines, and a last one that may lack its line end, through the 256-byte buffer gives exactly those lines |
| IniText.LongLineSplits | samples/C/M5Stack/components/config_manager/config_manager.c:245-247 | a longer line is cut after 255 characters, and the rest is read as the next line |
| IniParser.LineOfAssignment | samples/C/M5Stack/components/config_manager/config_manager.c:248-284 | with any blanks before and behind key and value, and any line end, a line is the assignment of its trimmed key and value |
| IniParser.LineOfHeader | samples/C/M5Stack/components/config_manager/config_manager.c:255-262 | with any blanks before and anything behind, a bracketed name is a section header, cut to 31 characters |
| IniParser.IgnoredExactly | samples/C/M5Stack/components/config_manager/config_manager.c:248-267 | exactly the blank lines, the comments, and those without the bracket or the equals sign they need are passed over; with the two rows above, this decides every line |
| IniParser.StoreIsUpdate | samples/C/M5Stack/components/config_manager/config_manager.c:285-343 | the chain of comparisons stores an accepted value into the one field that section and key name, and refused values nowhere |
| IniParser.StoreGet | samples/C/M5Stack/components/config_manager/config_manager.c:285-343 | for each of the 18 fields, an assignment changes it exactly when section and key are its own and the value is acceptable; shared keys such as password and ca_cert do not leak between sections |
| IniParser.AcceptBySameReading | samples/C/M5Stack/components/config_manager/config_manager.c:285-343 | a number is cut to 8 or 16 bits before it is tested, a text to its buffer: values that read the same are stored or refused alike |
| IniParser.LastWins | samples/C/M5Stack/components/config_manager/config_manager.c:247-344 | for every sequence of lines, each field has its last acceptable assignment in its section, or its default |
| IniParser.RunInRange | samples/C/M5Stack/components/config_manager/config_manager.c:247-344 | brightness is 1..100, qos at most 2, timeout, keep-alive and publish frequency positive, and every text fits its buffer with its terminator |
| IniParser.Parser.TrimStart | samples/C/M5Stack/components/config_manager/config_manager.c:248-251 | the loop stops at the first character that is not blank |
| IniParser.Parser.TrimEnd | samples/C/M5Stack/components/config_manager/config_manager.c:269-273 | the loop cuts trailing blanks and nothing else |
| IniParser.Parser.Classify | samples/C/M5Stack/components/config_manager/config_manager.c:248-284 | the loops and searches on the line refine the specification of a line, which the three rows on lines above decide for every text |
| IniParser.Parser.ParseFile | samples/C/M5Stack/components/config_manager/config_manager.c:227-353 | for every file content: last assignment wins for every field, all ranges hold, and the result is an error exactly for an unreadable file or a wrong version |
| IniPrinter.FieldLineParses | samples/C/M5Stack/components/config_manager/config_manager.c:263-284 | the line of a field parses to its key and value in every layout of blanks and line ends |
| IniPrinter.RunPrinted | samples/C/M5Stack/components/config_manager/config_manager.c:247-344 | from any parser state, printed lines, in any order and layout and with comments between them, set exactly their fields and leave the others |
| IniPrinter.PrintThenParse | samples/C/M5Stack/components/config_manager/config_manager.c:227-353 | every configuration in range with clean texts is read back from its file through fgets, trimming and number conversion, however the file is laid out: order of the fields, defaults left out, blanks, either line end, comments and blank lines |
| MqttAssembly.MqttManager.constructor | samples/C/M5Stack/components/mqtt_manager/mqtt_manager.c:64 | the static assembly starts zeroed and idle with an empty queue |
| MqttAssembly.MqttManager.Clear | samples/C/M5Stack/components/mqtt_manager/mqtt_manager.c:169 | memset returns the assembly to that state and leaves the queue alone |
| MqttAssembly.MqttManager.Copy | samples/C/M5Stack/components/mqtt_manager/mqtt_manager.c:183-212 | memcpy writes inside the buffer, exactly the given bytes at the given index |
| MqttAssembly.CopyInBoundsIffSumFits | samples/C/M5Stack/components/mqtt_manager/mqtt_manager.c:203-212 | a fragment that passes the checks is copied inside the payload buffer if and only if the sum of its offset and length is an int |
| MqttAssembly.OverflowPassesChecks | samples/C/M5Stack/components/mqtt_manager/mqtt_manager.c:203-212 | whatever length was declared, there is a fragment whose wrapped sum passes the checks although it ends behind the buffer |
| MqttAssembly.MqttManager.StoreFragment | samples/C/M5Stack/components/mqtt_manager/mqtt_manager.c:203-227 | a fragment is refused, stored, or completes the message, with the whole new state of buffers, 32-bit counter and queue; only one that passes the checks has to end within an int |
| MqttAssembly.MqttManager.HandleData | samples/C/M5Stack/components/mqtt_manager/mqtt_manager.c:162-228 | the array-based handler on 32-bit fields refines the pure step that the run theorems are about, with every write in bounds, for every event but one whose fragment is copied and ends behind the largest int; dropped and refused events may overflow |
| MqttDelivery.DeliverOne | samples/C/M5Stack/components/mqtt_manager/mqtt_manager.c:162-228 | whatever state earlier traffic left, one fragmented message is delivered whole or, when it does not fit, not at all |
| MqttDelivery.QueueReceivesExactlyFittingMessages | samples/C/M5Stack/components/mqtt_manager/mqtt_manager.c:162-228 | for every sequence of messages, every split into fragments and every timing of the consumer, queue and consumer see what a plain bounded queue of whole messages gives |
| MqttDelivery.ReceivedInOrder | samples/C/M5Stack/components/mqtt_manager/mqtt_manager.c:162-228 | over any such run, what the consumer has received and what waits for it are, byte for byte, messages at a strictly increasing sequence of indices: exactly those that fit and for which fewer than five were waiting when their last piece came |
| MqttDelivery.NothingLostWithRoom | samples/C/M5Stack/components/mqtt_manager/mqtt_manager.c:223-225 | as long as no message finds five others waiting, all fitting messages come through, in order |
| MqttDelivery.OversizedEnds | samples/C/M5Stack/components/mqtt_manager/mqtt_manager.c:174-191 | after an oversized message the assembly is clear again, or still dropping exactly if it came in one piece |
| MqttDelivery.PromptConsumerReceivesAllFitting | samples/C/M5Stack/components/mqtt_manager/mqtt_manager.c:162-228 | a consumer that takes after each message receives exactly the fitting messages in order |
| MqttCoverage.InvAlways | samples/C/M5Stack/components/mqtt_manager/mqtt_manager.c:162-228 | over every run of arbitrary events in which no copy overruns, while a message is active its buffer is that of the accepted fragments, all within the declared length, and its counter theirs modulo 2^32 |
| MqttCoverage.NothingSentAfterRefusal | samples/C/M5Stack/components/mqtt_manager/mqtt_manager.c:162-217 | after any run, an event whose fragment is not copied ends the message under way: whatever fragments follow, nothing is sent before the next event at offset 0 |
| MqttCoverage.CoverSize | samples/C/M5Stack/components/mqtt_manager/mqtt_manager.c:203-227 | fragments cover as many positions as they have bytes exactly when they are pairwise disjoint |
| MqttCoverage.CoverageIffDisjoint | samples/C/M5Stack/components/mqtt_manager/mqtt_manager.c:219-222 | when the byte count equals the length, every position is written if and only if the fragments are disjoint |
| MqttCoverage.EnqueuedCoveredIffDisjoint | samples/C/M5Stack/components/mqtt_manager/mqtt_manager.c:162-227 | for every run in which no copy overruns, the bytes of an enqueued payload add up to its declared length modulo 2^32; its fragments are disjoint if and only if every byte was written and the count did not overflow; and then each byte is that of its one writer |
| MqttCoverage.CountingIsNotCoverage | samples/C/M5Stack/components/mqtt_manager/mqtt_manager.c:215-222 | four concrete events complete a message of three bytes whose first byte never arrived |
| MqttCoverage.CoverageIsNotDisjointness | samples/C/M5Stack/components/mqtt_manager/mqtt_manager.c:213-222 | after more than 2^32 bytes of overlapping fragments the counter is right again, and a fully written message is enqueued |
| MqttTopics.FilterUntruncatedIffFits | samples/C/M5Stack/components/mqtt_manager/mqtt_manager.c:137-139 | the subscription filter is built whole exactly for a base of at most 62 characters, or 63 that end in a slash |
| MqttTopics.ResponseHasSameKey | samples/C/M5Stack/components/mqtt_manager/mqtt_manager.c:285-322 | every topic matched by the subscription (section 4.7.1 of MQTT 3.1.1) with a non-empty last level is answered on base/rsp/key with that key; without wildcards in the base it is base/cmd/key |
| MqttTopics.ResponseTopicsDistinct | samples/C/M5Stack/components/mqtt_manager/mqtt_manager.c:285-322 | two commands are answered on the same topic exactly when their keys are equal |
| MqttTopics.BuildersAgreeIffBase | samples/C/M5Stack/components/mqtt_manager/mqtt_manager.c:233-280 | the two ways of building a topic agree exactly for a non-empty base or a suffix with a leading slash |
| MqttTopics.BuildTopicTruncates | samples/C/M5Stack/components/mqtt_manager/mqtt_manager.c:233-253 | a topic is built into its buffer whole, or cut off to fill it |
| MqttTopics.ResponseWithoutKey | samples/C/M5Stack/components/mqtt_manager/mqtt_manager.c:300-306 | a command topic without a last level is answered without a key |
| Sht3x.Device.Init | samples/C/M5Stack/components/sht3x/sht3x.c:231-241 | afterwards no fetch is let out, even when the command could not be sent; the invariant of every run is kept |
| Sht3x.Device.Start | samples/C/M5Stack/components/sht3x/sht3x.c:135-145 | after a success a fetch is let out exactly when the duration has passed; a failure starts nothing; either way every fetch stays justified |
| Sht3x.Device.Fetch | samples/C/M5Stack/components/sht3x/sht3x.c:147-201 | which error each fetch gives; once a frame has arrived, good or bad, further fetches are refused exactly when the last start command asked for single shot |
| Sht3x.Device.Stop | samples/C/M5Stack/components/sht3x/sht3x.c:288-299 | after a success no fetch is let out, after a failure nothing has changed |
| Sht3x.InvApply | samples/C/M5Stack/components/sht3x/sht3x.c:135-201 | every operation keeps that a started driver stands for a start in its history that was sent, with nothing since that ended it |
| Sht3x.FetchesAreJustified | samples/C/M5Stack/components/sht3x/sht3x.c:135-201 | over every run, a fetch follows a sent start with no stop or reset in between; the first one after the latest start waits the duration of the repeatability last asked for, even when checksums failed before; and none follows a fetch before which single shot was last asked for |
| Sht3x.WaitIffNotShortened | samples/C/M5Stack/components/sht3x/sht3x.c:135-158 | in every run, an unfetched measurement is waited for in full if and only if its time is up already or the last start command, sent or not, asked for at least its duration |
| Sht3x.StartBetweenSingleShots | samples/C/M5Stack/components/sht3x/sht3x.c:147-201 | in every run a sent start lies between a fetch before which single shot was last asked for and any later fetch, even when the checksums failed |
| Sht3x.FailedStartShortensWait | samples/C/M5Stack/components/sht3x/sht3x.c:135-158 | a concrete run in which a failed start lets a fetch out before the duration of the measurement under way |
| Sht3x.SecondFetchIffLastAskedPeriodic | samples/C/M5Stack/components/sht3x/sht3x.c:135-184 | in every run, a fetched measurement can be fetched again before the next sent start if and only if the last start command, sent or not, asked for periodic mode; so a measurement is treated by the mode it was started in exactly when that command agrees on single shot |
| Sht3x.FailedStartRepeatsSingleShot | samples/C/M5Stack/components/sht3x/sht3x.c:135-184 | a concrete run in which one single-shot measurement is fetched twice after a periodic start failed to be sent |
| Sht3x.FailedStartEndsPeriodic | samples/C/M5Stack/components/sht3x/sht3x.c:135-184 | a concrete run in which a periodic measurement is refused after one fetch because a single-shot start failed to be sent |
| Sht3x.BurstInFrameRejected | samples/C/M5Stack/components/sht3x/sht3x.c:186-198 | a burst of up to 8 bits inside either word of a valid frame makes the frame invalid |
| FileAgent.WorkerAnswers | samples/python/file-agent/file-agent/file_agent/processor.py:73-100 | a command is answered 422 and not run, or 201 before it runs and then 200 exactly for exit code 0, else 500, also when the runner raises |
| FileAgent.PrepareAnswers | samples/python/file-agent/file-agent/file_agent/processor.py:102-121 | a prepare-upload has exactly one answer: 400 exactly for invalid data, 500 exactly when staging raised, 200 exactly after a PAR was staged |
| FileAgent.MessageProcessor.HandleCompleteUpload | samples/python/file-agent/file-agent/file_agent/processor.py:123-162 | the actions of a complete-upload and their order; without a queue the worker's part is done at once in place of the enqueue, and the answers are those that the facts of the request demand |
| FileAgent.ScriptCodes | samples/python/file-agent/file-agent/file_agent/processor.py:73-162 | a complete-upload is answered 400, 500, 422, 200, 202-201-200 or 202-201-500, each if and only if the facts of the request call for it; its PAR is deleted, and its command run, exactly in its case |
| FileAgent.InvAlways | samples/python/file-agent/file-agent/file_agent/processor.py:222-231 | for every interleaving of the two threads, for each message what is done plus what is still owed is its whole script, and both queues are in order |
| FileAgent.ResponsesFollowProtocol | samples/python/file-agent/file-agent/file_agent/processor.py:73-162 | in every run the responses to a message are a prefix of its own sequence, which for a complete-upload is one of the six above |
| FileAgent.CommandAfterDeletion | samples/python/file-agent/file-agent/file_agent/processor.py:135-162 | in every run a command runs at most once per message, and only after the message's PAR was deleted |
| FileAgent.CommandsRunInQueueOrder | samples/python/file-agent/file-agent/file_agent/processor.py:222-231 | commands run in the order in which they were queued, which is the order of the requests |
| FileAgent.NothingOwedAfterStop | samples/python/file-agent/file-agent/file_agent/cli.py:163-178 | once the worker has consumed the stop sentinel, every received message has had its whole script and has been answered by its own facts: each 202 has its terminal answer |
| FileAgent.NothingAfterUndeliverable | samples/python/file-agent/file-agent/file_agent/cli.py:163-178 | in every run a message that cannot be delivered is the last one received |
| FileAgent.CanBeStopped | samples/python/file-agent/file-agent/file_agent/cli.py:163-178 | from any state the agent can be stopped as soon as the message in hand has been handled, without receiving another |
| FileAgent.WorkerProgress | samples/python/file-agent/file-agent/file_agent/processor.py:222-231 | once the sentinel is queued only the worker's own next step changes anything, and each one brings its end nearer |
| FileAgent.StoppedWorkerFinishes | samples/python/file-agent/file-agent/file_agent/cli.py:163-178 | liveness: under every interleaving the worker has ended after a number of its own steps known when the sentinel is queued, with every received message dealt with completely |
| AgentStore.ServeOutcome | samples/python/file-agent/file-agent/file_agent/object_storage.py:54-97 | a complete-upload finds a PAR exactly when one of its transaction is live, and has deleted it exactly when the request worked |
| AgentStore.StoreBalance | samples/python/file-agent/file-agent/file_agent/object_storage.py:54-97 | over any requests and janitor deletions, live, deleted and pruned PARs of a transaction add up to those there were and those staged, counting what was staged or deleted by a request that raised |
| AgentStore.CompletionsWithinPrepares | samples/python/file-agent/file-agent/file_agent/processor.py:102-162 | with the two threads over the store, in every run the complete-uploads of a transaction answered 200 or 202 never outnumber its prepares answered 200, beyond the PARs there were at the start and those of prepares answered 500 whose request took effect |
| AgentStore.AnsweredByStore | samples/python/file-agent/file-agent/file_agent/processor.py:123-162 | in every run that has ended, a valid complete-upload was answered 422 for want of a PAR exactly when none was live, 500 exactly when its deletion failed, and accepted exactly otherwise with no unknown command |
| DeviceWait.Responses.WaitForResponse | samples/python/file-agent/file-agent/file_agent/device_demo.py:267-282 | returns the first arrival of that operation and transaction within the timeout and skips no match, or times out having seen none |
| DeviceWait.Responses.WaitForTerminal | samples/python/file-agent/file-agent/file_agent/device_demo.py:285-303 | returns the first matching arrival with a terminal code; a timeout has missed no arrival before the deadline and has waited 0.1 s behind the last progress answer, and an answer accepted after the deadline is late by at most 0.1 s for each progress answer and 0.1 s more |
| DeviceWait.UnrelatedTrafficDoesNotAnswer | samples/python/file-agent/file-agent/file_agent/device_demo.py:280-282 | traffic of other transactions mixed in anywhere does not change the sequence of matching answers |
| DeviceWait.FreshTransactionAnswers | samples/python/file-agent/file-agent/file_agent/processor.py:164-178 | with a fresh transaction the agent's answers to it are those to the one message |
| DeviceWait.TerminalWaitReturnsOutcome | samples/python/file-agent/file-agent/file_agent/device_demo.py:285-303 | composition: over a lossless FIFO channel with arbitrary other traffic and every interleaving in the agent, the wait has skipped exactly the 202 and 201, if any, and returns the one terminal answer, which nothing follows |
| DeviceWait.TerminalExactlyLast | samples/python/file-agent/file-agent/file_agent/device_demo.py:300-302 | of each sequence of answers exactly the last one ends the wait |
| DeviceWait.AnsweredWaitEnds | samples/python/file-agent/file-agent/file_agent/device_demo.py:285-303 | once all answers have arrived behind the beginning of a wait, there is one that ends it, the last |
| DeviceWait.Responses.RunDemo | samples/python/file-agent/file-agent/file_agent/device_demo.py:220-247 | the demo succeeds if and only if the upload went well and the first answer to its prepare-upload and then the first terminal answer to its complete-upload are both 200; a wait that gives none has passed over none |
| DeviceWait.DemoOutcome | samples/python/file-agent/file-agent/file_agent/device_demo.py:220-247 | the two waits in their order on one queue, against every interleaving of the agent: the first returns the one answer to the prepare-upload, the second begins behind it, skips exactly the 202 and 201 and returns the one terminal answer; the first is 200 if and only if the PAR was staged, the second if and only if it was deleted and the command, if any, is configured and succeeded |
| ParService.ParNameInjective | samples/python/file-agent/file-agent/file_agent/object_storage.py:145-148 | the name of a PAR determines device and transaction, even for device ids with colons |
| ParService.OwnNamesListed | samples/python/file-agent/file-agent/file_agent/object_storage.py:120-124 | the prefix filter of the listing never hides a PAR of the agent |
| ParService.ListedIffOwnPrefix | samples/python/file-agent/file-agent/file_agent/object_storage.py:120-124 | of two agents with colon-free prefixes neither lists a PAR of the other |
| ParService.PrunableByAge | samples/python/file-agent/file-agent/file_agent/object_storage.py:129-137 | only PARs of a known age up to the cutoff are pruned, those created at it included; a later cutoff finds no fewer, and the additional ones were created in between |
| ParService.UploadPrefixesPrefixFree | samples/python/file-agent/file-agent/file_agent/object_storage.py:150-154 | for device ids without a slash no upload prefix lies inside another |
| ParService.Service.Stage | samples/python/file-agent/file-agent/file_agent/object_storage.py:54-82 | one PAR is added, named for its transaction, with an expiry between one minute and the limit, or nothing changes |
| ParService.Service.List | samples/python/file-agent/file-agent/file_agent/object_storage.py:107-127 | across any number of pages, the agent's own PARs and no others, in order |
| ParService.Service.Find | samples/python/file-agent/file-agent/file_agent/object_storage.py:99-105 | the first PAR of the transaction in the bucket, or None exactly when there is none, however the listing is paged |
| ParService.Service.Complete | samples/python/file-agent/file-agent/file_agent/object_storage.py:84-97 | false exactly when no PAR of the transaction is live; otherwise exactly one is deleted |
| ParService.Service.Prune | samples/python/file-agent/file-agent/file_agent/object_storage.py:129-143 | deletes only the agent's PARs at or past the cutoff, all of them unless a delete request fails, and then exactly as many as went before it; none created after the cutoff is gone |
| ParService.StepAccounts | samples/python/file-agent/file-agent/file_agent/object_storage.py:84-143 | each operation, of whatever device and transaction, keeps the balance of live, staged, completed and pruned PARs |
| ParService.LiveParsAccounted | samples/python/file-agent/file-agent/file_agent/object_storage.py:84-143 | over any sequence of operations, live PARs of a transaction are its stages less its completions less its pruned ones |
| Archive.BuildPlan | samples/python/archive-domain/archive_domain/planner.py:32-72 | a window for each selected dataset and no other, which the three rows below decide; fails exactly when no start can be derived |
| Archive.ExplicitTimesSelect | samples/python/archive-domain/archive_domain/planner.py:44-52 | with explicit start and end a planned window selects a row exactly between them, whatever checkpoint, retention and bootstrap there are |
| Archive.ExplicitStartOverrules | samples/python/archive-domain/archive_domain/planner.py:49-52 | with an explicit start, plans from any two checkpoints and bootstraps are the same |
| Archive.DefaultTimes | samples/python/archive-domain/archive_domain/planner.py:44-56 | without one, the start is the checkpoint less the retention, and only without a checkpoint the boundary less the lookback; the default end is the boundary |
| Archive.SelectionExactly | samples/python/archive-domain/archive_domain/planner.py:17-29 | which selections are refused and why, and that an accepted one is the named datasets, each once, in the fixed order |
| Archive.SelectionNotEmpty | samples/python/archive-domain/archive_domain/service.py:78-88 | an accepted selection names at least one dataset, and exactly one for datapump |
| Archive.ArchiveService.ShouldAdvance | samples/python/archive-domain/archive_domain/object_storage.py:21-25 | true exactly when there is a status and every status is a success |
| Archive.ArchiveService.Run | samples/python/archive-domain/archive_domain/service.py:93-227 | the stored checkpoint moves to the time of the run if and only if there is a state store and every step succeeds; a run without one reports an advance that nothing keeps; the error is the first one met |
| Archive.SucceedsIffNoError | samples/python/archive-domain/archive_domain/service.py:125-227 | a run reports an advance exactly when it ends without an error, is not dry and no dataset failed |
| Archive.FirstBlockingStep | samples/python/archive-domain/archive_domain/service.py:93-227 | a run ends with the error of the first of its seven steps that is blocked, and without one exactly if none is |
| Archive.FailedAndDryRunsCanBeErased | samples/python/archive-domain/archive_domain/service.py:207-217 | any history has the same checkpoint, windows and retentions as its advancing runs alone, none of which is dry |
| Archive.ReportedWindowsAreRecorded | samples/python/archive-domain/archive_domain/planner.py:44-66 | the windows that an advancing run exports are those that the history theorems count |
| Archive.TilingCountsOnce | samples/python/archive-domain/archive_domain/sql.py:96-97 | when consecutive half-open windows meet, a row inside their span is selected by exactly one query, any other row by none |
| Archive.CountBalance | samples/python/archive-domain/archive_domain/sql.py:96-97 | a row is selected once for lying in the span of the windows, once more for each overlap and once less for each gap it lies in |
| Archive.TilingIffDriftsMadeUp | samples/python/archive-domain/archive_domain/planner.py:44-66 | over any history of successful, failed and dry runs whose advancing runs use default times where they select the dataset, on a clock that never goes back, its windows tile one interval if and only if each drift of the checkpoint in runs without it is made up by more retention |
| Archive.TilingIffRetentionConstant | samples/python/archive-domain/archive_domain/planner.py:44-66 | with the dataset in every advancing run, the windows tile if and only if all those runs had the same retention |
| Archive.RowsArchivedByBalance | samples/python/archive-domain/archive_domain/planner.py:44-66 | over any such history, also with runs that do not select the dataset, a row in the span is archived 1 + overlaps - gaps times: lost if and only if it lies in more gaps than overlaps, once if and only if they balance |
| Archive.EveryRowArchivedOnce | samples/python/archive-domain/archive_domain/planner.py:44-66 | with the dataset in every advancing run and one retention, every row in the tiled interval is archived exactly once, any other never |
| Archive.GapIffRetentionShrank | samples/python/archive-domain/archive_domain/planner.py:44-66 | between any two consecutive windows of a history there is a gap if and only if the checkpoint drifted on by more than the retention grew, an overlap if and only if by less, of exactly the difference; with the dataset always selected, if and only if the retention shrank, or grew |
| Archive.ShrunkRetentionLosesRow | samples/python/archive-domain/archive_domain/planner.py:44-66 | a concrete history of two runs whose windows do not meet and leave a row of their span in neither |
| Archive.UnselectedRunLosesRow | samples/python/archive-domain/archive_domain/service.py:207-217 | a concrete history with one retention in which a run without the dataset moves the shared checkpoint past a day of its rows |
| Streaming.ControlNext | samples/java/src/main/java/com/oracle/iot/samples/helpers/QueueSubscription.java:93-141 | every atomic step but an install during such a wait keeps that at most one thread is in the loop body, the installed one or one that a stop is joining, with any number of stop calls |
| Streaming.ConservedNext | samples/java/src/main/java/com/oracle/iot/samples/helpers/QueueSubscription.java:120-141 | no step loses, duplicates or reorders a message between queue, open transaction and removal |
| Streaming.InvAlways | samples/java/src/main/java/com/oracle/iot/samples/helpers/QueueSubscription.java:93-141 | both hold in every run, and the messages handed to the handler are always the removed and pending ones less those of the thread that is handling |
| Streaming.OneThreadInBody | samples/java/src/main/java/com/oracle/iot/samples/helpers/QueueSubscription.java:93-141 | under every interleaving, a stop between compare-and-set and thread start included, at most one thread is inside the loop body |
| Streaming.QuietAfterStop | samples/java/src/main/java/com/oracle/iot/samples/helpers/QueueSubscription.java:108-118 | when no thread is installed and no stop is waiting for one in the body, no thread enters the body and nothing is dequeued, handled or committed until the next start installs a thread |
| Streaming.StopQuietIffNoneJoining | samples/java/src/main/java/com/oracle/iot/samples/helpers/QueueSubscription.java:108-118 | in every reachable state that a returning stop call leaves, all is quiet until the next start if and only if no other stop is waiting for a thread inside the body |
| Streaming.SecondStopReturnsEarly | samples/java/src/main/java/com/oracle/iot/samples/helpers/QueueSubscription.java:108-118 | a concrete run in which a second stop call returns at once and the thread then dequeues a message |
| Streaming.RemovedWereHandled | samples/java/src/main/java/com/oracle/iot/samples/helpers/QueueSubscription.java:120-141 | every message removed by a commit was handed to the handler before, in queue order and none twice |
| Streaming.CommitSettles | samples/java/src/main/java/com/oracle/iot/samples/helpers/QueueSubscription.java:131-133 | in every reachable state, after a successful commit nothing is pending and exactly the handled messages have been removed; a failed one changes nothing |
| Streaming.RoundRemoves | samples/java/src/main/java/com/oracle/iot/samples/helpers/QueueSubscription.java:120-141 | a thread left to itself takes up to ten messages, hands each on and removes them with all that was pending |
| Streaming.DequeueTakes | samples/java/src/main/java/com/oracle/iot/samples/helpers/QueueSubscription.java:123-127 | a dequeue takes the oldest messages, no more than asked for or than the buffer holds |
| Streaming.StartCallEnds | samples/java/src/main/java/com/oracle/iot/samples/helpers/QueueSubscription.java:98-102 | a start call installs and starts its thread, or ends without one exactly if another is installed |
| Streaming.StopCallReturns | samples/java/src/main/java/com/oracle/iot/samples/helpers/QueueSubscription.java:108-118 | a stop call returns once its thread has come to the guard, at once for one not alive |
| Streaming.OverlappingControllersBreakExclusion | samples/java/src/main/java/com/oracle/iot/samples/helpers/QueueSubscription.java:93-118 | with a second controller that starts while the first is joining, two threads can be in the body |
| Streaming.InstallUnsafeIffJoiningBody | samples/java/src/main/java/com/oracle/iot/samples/helpers/QueueSubscription.java:93-118 | in every reachable state, a start that installs its thread can lead to two threads in the body if and only if a stop is waiting for a thread inside it |

## Left out

- Foreign services: I2C, FreeRTOS, file systems, MQTT and HTTP clients, OCI and database drivers, subprocesses. Only their outcomes (success, failure, data returned) appear, as parameters.
- Display, Wi-Fi, time synchronisation, OTA download, command lines, sensor simulator, dashboards, Terraform and Node-RED parts: thin wrappers or user interface.
- Floating point: conversions of sensor values to degrees, pascals and percent.
- QMP6988: bitwise-or of disjoint fields is written as addition, and shifts are two's complement; configuration registers, power modes and chip identification are not modelled.
- CRC-16: its length is taken to be below 2^16, which the type of the parameter forces.
- Configuration record: the characters of its texts are taken to be bytes; `ConfigBoot` takes the parsed card configuration as given, which `ConfigRecord` connects to the parser.
- SHA-256: an arbitrary function of the contents. Mount and unmount beyond the first failure, logging and `dump_config` are not modelled.
- IniParser.Parser.Classify: works on string values; the NUL bytes that the source writes into the line buffer are not modelled in place. `atoi` and `strtoul` are those of a C library with 32-bit `long` that saturates.
- MqttAssembly.MqttManager.HandleData: for an event whose fragment is copied although offset and length have no int as sum it promises nothing, since the copy leaves the buffer. Overflow, undefined in C, is two's complement. A null queue or event, which the source ignores, is not modelled; the topic length is non-negative and pointers are readable for their lengths, as the client library promises.
- MqttTopics.BuildersAgreeIffBase: truncation by other buffer sizes, failed allocations, connection state and the JSON payload of a response are not part of it.
- Sht3x: heater, measurement wrapper and value conversion; the clock does not wrap.
- FileAgent: responses carry codes only, not texts or data. The outcome of the command is part of a message, and so is that of the PAR service except in `AgentStore`; the responder does not raise; an interrupt arrives only while waiting to dequeue, or a lookup fails before the message is handled. Messages with another operation are refused by validation.
- DeviceWait: times are integer milliseconds, and processing a response takes none.
- ParService: upload URLs, the cached namespace and expiry of PARs by the store itself are not modelled; a listing is any paging of the bucket at one moment. A request to the bucket that fails has no effect there; `AgentStore` admits one that raises and takes effect.
- AgentStore: the janitor deletes between two requests, not within one.
- Archive: times are integer seconds. Manifests, object names, formats other than the one-dataset rule, query texts other than the window predicate, and the text form of the checkpoint are not modelled. A selection that is the empty string counts as no selection.
- Archive.RowsArchivedByBalance: says nothing about histories in which a run that selects the dataset has explicit times.
- Streaming: a state machine on values, because the threads share memory only through the atomic reference; one transaction, a handler that does not throw, and at most one start call at a time.
