# Verification of the Aura radio firmware's logic

A Dafny model of the parts of the Aura firmware (and of its host tools) whose correctness is not obvious from one
function body, with proofs of what they promise. `dafny verify dfyconfig.toml` checks everything.

Code that updates things in place is modelled as methods and classes with the same fields and loops, each proved
against a specification function; code that only computes is modelled as functions. The theorems are about those
specification functions, over all inputs and all runs.

| area | files |
|---|---|
| bytes, bit operators, ranks | `Bytes.dfy`, `Bits.dfy`, `RankSelect.dfy` |
| programming protocol: checksum, frames, handshake, settings windows | `Crc.dfy`, `Frame.dfy`, `Handshake.dfy`, `Settings.dfy` |
| flash: chip and driver, sector rewriting, wear-leveled records, channel table and sessions, satellites | `NorFlash.dfy`, `SectorRewrite.dfy`, `WearLeveled.dfy`, `ChannelStore.dfy`, `Satellites.dfy` |
| record formats and codecs | `FlashMap.dfy`, `Digits.dfy`, `Vfo.dfy`, `Side.dfy`, `ChannelEdit.dfy`, `Chirp.dfy` |
| channel list, channel search, frequency scan | `ChannelList.dfy`, `ChannelSearch.dfy`, `FreqScan.dfy` |
| radio chip arithmetic: DCS words, crystal correction, tones | `Dcs.dfy`, `DcsStandard.dfy`, `Tuning.dfy` |
| machines: keypad, name editor, spectrum analyser, DTMF caller id | `Keypad.dfy`, `NameEdit.dfy`, `Spectrum.dfy`, `Ani.dfy` |

## How the source is represented

- Bytes are integers from 0 to 255, and the source's 16- and 32-bit words are integers with their bounds; where the
  source wraps, truncates or saturates, the model says so with `%` or an `if`. Shifts and masks of single fields are
  written as division and remainder, bitwise AND, OR and XOR of whole words as the recursive functions of `Bits.dfy`.
  `DcsStandard.dfy` repeats the DCS encoder on bit vectors, proves it equal, and computes the standard words with it.
- The flash chip is a sequence of bytes with sector erase, and page program as a bitwise AND with wrap-around inside
  the page. A ghost history records its content after every single operation, so that a property of the history is a
  property of losing power between any two operations.
- Key scans, signal strengths, decoded DTMF digits, clock readings and received bytes are inputs.

## What the proofs bring out

Places where the code does less than one would expect, or less than its comments say, each stated as an
exact condition or a concrete case:

- DCS codes 526 and 645 (octal) have words that are rotations of one another, so 645 is always reported as 526; all
  other codes of the standard table are told apart (`DcsStandard.StandardCodesReported`).
- A record cut off by a power failure while a slot was being appended, and only then, can make a later, different save of
  the same wear-leveled region unreadable (`WearLeveled.Region.SaveAfterCut`, `CutCanRuinLaterSave`). Replacing a record
  is safe against power failure exactly while the sector has room for one more; starting it over forgets the old record
  first (`Save`, `RestartIsNotAtomic`).
- A frequency scan started below the synthesizer's range climbs step by step instead of wrapping into it
  (`FreqScan.HopEndsInBand`, `HopBelowRange`).
- The crystal correction overflows in the top 46 MHz of the synthesizer's range at either end of the calibration
  (`Tuning.HardwareRangeFits`, `TopOfRangeMistuned`).
- Leaving the spectrum analyser returns the radio to the master frequency, which is in the middle of the first window
  and can have been blacklisted there (`Spectrum.BlacklistPersists`, `MasterFrequencyComesBack`).
- While the analyser listens, the blacklist key marks the peak, which need not be the bar that is heard, and what is heard
  is drawn in the peak's bar (`Spectrum.BlacklistsWhatIsHeard`, `WrongBarMarked`).
- A frequency scan downwards visits other frequencies than one upwards unless the band is a whole number of steps wide
  (`FreqScan.SameRasterExactly`).
- The programming software shows a channel with a stored transmit frequency of 0 as simplex, though the radio has 0 as its
  transmit frequency, and a power byte above 2 as low, which the radio takes for high (`Chirp.ShownAsUsedExactly`).
- The reverse switch is no setting of the VFO: used an odd number of times in channel mode, it leaves the VFO's two
  frequencies exchanged on return (`Side.VfoComesBack`).
- A side in channel mode has its channel saved as its VFO whenever the other side's VFO changes, and the next restart
  finds it there (`Side.SavedDuringVisit`); a search result saved from channel mode takes the channel's width, power and
  target along (`Side.SearchTakesChannelAlong`).
- A name buffer with a zero in front of a character lets the cursor leave the text (`NameEdit.HoleFreeExactly`).
- Packed frequencies wrap at 1.6 GHz (`Digits.Bcd4RoundTrip`).
- Stored tone codes 211 to 250 decode to no tone (`Vfo.CodeKeptExactly`).
- More than sixteen DTMF digits in one burst are judged in pieces, so that the end of a long burst can be taken for a
  call (`Ani.JudgedWholeExactly`).
- A CTCSS tone is read back a tenth of a hertz low, and above 396.7 Hz, beyond the standard ones, as another tone
  (`Tuning.ToneRoundTrip`).
- Saving the satellite list drops the padding bytes that loading keeps (`Satellites.LoadAfterSave`).
- `write_satellite` asks its callers to write all twenty slots lest the others stay indeterminate; the others are simply
  empty afterwards (`Satellites.SatSessionStores`).

## Model

| member | source | states |
|---|---|---|
| `Crc.Crc16Xmodem` | src/hal/wear_leveled.rs:3-16 | the firmware's in-place loop computes the checksum `Crc16` of every message |
| `Crc.CrcMaskedPerBit` | tools/dump_aura_spiflash.py:26-33 | the host loop that masks after every shift, on unbounded integers, computes the same checksum for every message |
| `Crc.CrcMaskedPerByte` | tools/chirp_bfk6_aura.py:47-54 | the host loop that masks once a byte, so that the word outgrows 16 bits in between, computes the same checksum for every message |
| `Crc.CrcIsRemainder` | src/hal/wear_leveled.rs:3-16 | the checksum is the remainder of the message, shifted by 16 places, in long division by x^16+x^12+x^5+1 over GF(2) |
| `Crc.BurstDetected` | src/hal/wear_leveled.rs:3-16 | two messages that differ only inside a nonzero burst of at most 16 consecutive bits, anywhere, have different checksums |
| `Crc.ResidueIsZero` | src/cps/frame.rs:160-180 | a message followed by its checksum always leaves the register at zero |
| `Crc.BurstBreaksMatch` | src/cps/frame.rs:139-153 | a burst of at most 16 bits across a message and its checksum never gives a matching pair |
| `Frame.ComputeFrameCrc` | src/cps/frame.rs:160-167 | the checksum covers exactly command, address, length and data |
| `Frame.EncodeInto` | src/cps/frame.rs:171-180 | the encoder writes exactly the frame at the front of the buffer, returns its length and leaves the rest of the buffer alone |
| `Frame.FrameReader.Feed` | src/cps/frame.rs:93-157 | one byte through the nine-state reader does to the bytes collected since the last header what the layout-level decoder does, whatever stale fields the reader holds |
| `Frame.FeedAll` | src/cps/frame.rs:93-157 | feeding a whole stream reports the events, and leaves the collected bytes, of the layout-level decoder |
| `Frame.VerdictIsExact` | src/cps/frame.rs:139-153 | a complete block is accepted exactly when it is the encoding of the message it claims |
| `Frame.DecoderSound` | src/cps/frame.rs:93-157 | every stream splits, in order and without overlap, into noise, rejected blocks and blocks that are exactly the encodings of the messages reported |
| `Frame.DecoderComplete` | src/cps/frame.rs:93-180 | any sequence of encoded frames of at most 96 data bytes, separated by noise without the header byte, decodes to exactly that sequence and leaves the reader idle |
| `Frame.ReaderRecovers` | src/cps/frame.rs:93-157 | whatever a lost byte or a damaged length field has left in the reader, at most 103 bytes without the header byte bring it back to idle and cost at most one wrong report; past the length field the number needed is exactly what is left of the block |
| `Frame.DecoderRecovers` | src/cps/frame.rs:93-180 | after such a pause any sequence of frames decodes to exactly that sequence |
| `Frame.DamagedFrameRejected` | src/cps/frame.rs:139-153 | a frame damaged by one burst of at most 16 bits behind the header byte, the length field apart, is reported as a checksum error and never as a message |
| `Frame.HostAcceptsExactly` | tools/chirp_bfk6_aura.py:73-84 | the host accepts exactly the streams that begin with the encoding of a message that is no error report, and returns that message |
| `Frame.HostEncodesFrames` | tools/chirp_bfk6_aura.py:57-60 | what the host packs for a request is byte for byte the firmware's encoding |
| `Frame.BothDirections` | tools/chirp_bfk6_aura.py:57-84 | a request of the host, behind any noise without the header byte, is one message to the firmware's decoder, and the firmware's answer is accepted by the host unless it is an error report |
| `Handshake.DetectorIsExact` | src/cps/mod.rs:35-48 | over every stream the counter completes exactly at the bytes where the stream ends with the handshake, although the fallback tries only the first character |
| `Handshake.HandshakeIsSuitable` | src/cps/mod.rs:16-16 | the word is the one the host sends, PROGRAMBF-K6AURA, and its first character never recurs in it, which is what the fallback needs |
| `Handshake.HandshakeDetector.Poll` | src/cps/mod.rs:35-48 | a poll drains the ring up to the first completing byte and reports whether there was one, however the stream was cut into polls |
| `NorFlash.NoWrap` | src/drivers/norflash.rs:75-86 | the chip's page program, whose address counter wraps inside the page, is a plain program when the data stays in one page |
| `NorFlash.NorFlash.WritePage` | src/drivers/norflash.rs:75-86 | one page program clears bits exactly where the data has zeros, and nowhere else |
| `NorFlash.NorFlash.WriteBytes` | src/drivers/norflash.rs:88-99 | page splitting programs exactly the requested range, for any address and length, and every intermediate state differs from the start only inside it |
| `NorFlash.NorFlash.EraseSector` | src/drivers/norflash.rs:102-109 | erasing sets the 4 KB sector around the address to ones and changes nothing else |
| `NorFlash.NorFlash.ReadBytes` | src/drivers/norflash.rs:65-73 | the buffer is filled with the flash content at the address |
| `NorFlash.ProgrammedInParts` | src/drivers/norflash.rs:88-99 | programming two adjacent pieces is programming their concatenation |
| `NorFlash.ProgrammedOnErased` | src/drivers/norflash.rs:88-99 | on erased flash programming stores the data unchanged |
| `SectorRewrite.StageSector` | src/device/storage.rs:237-254 | stage one leaves the patched sector image in the scratch sector, for any stale scratch content, and at every step changes nothing outside the scratch sector |
| `SectorRewrite.CopyBack` | src/device/storage.rs:256-264 | stage two makes the target sector equal to the staged one and at every step changes nothing outside the target |
| `SectorRewrite.RewriteRecord` | src/device/storage.rs:232-265 | the target sector ends as its old content with the record spliced in, every sector but the scratch one is unchanged, and after every single flash operation either the old sector or the complete patched image is present |
| `WearLeveled.Region.FindFreeSlot` | src/hal/wear_leveled.rs:51-64 | the method finds the first set marker bit, or reports none |
| `WearLeveled.Region.ReadSlotIsExact` | src/hal/wear_leveled.rs:66-78 | a slot yields a payload exactly when it holds that payload followed by its checksum |
| `WearLeveled.Region.ReadSlot` | src/hal/wear_leveled.rs:66-78 | the method returns the payload of a slot under that rule |
| `WearLeveled.Region.Load` | src/hal/wear_leveled.rs:89-95 | the method returns the payload of the slot the bitmap points to, if its checksum matches |
| `WearLeveled.Region.WriteSlot` | src/hal/wear_leveled.rs:80-87 | payload and checksum are programmed side by side and nothing outside the slot changes at any step |
| `WearLeveled.Region.Save` | src/hal/wear_leveled.rs:97-116 | a save has the specified effect; while there is room every intermediate flash state loads either the old or the new record; and when one record replaces another, neither being all ones, that holds if and only if there is room for one more slot |
| `WearLeveled.Region.SaveThenLoad` | src/hal/wear_leveled.rs:89-116 | for any flash content with a consistent bitmap, a save is read back exactly when the payload was stored already, the sector is started over, or the target slot still has every bit the record needs |
| `WearLeveled.Region.SaveFromReady` | src/hal/wear_leveled.rs:97-116 | from a state left by completed saves a save is always read back and leaves such a state |
| `WearLeveled.Region.FormattedIsReady` | src/hal/wear_leveled.rs:97-116 | an erased sector is such a state |
| `WearLeveled.Region.LastSaveWins` | src/hal/wear_leveled.rs:89-116 | after any run of saves the last payload is the one loaded |
| `WearLeveled.Region.WearIsSpread` | src/hal/wear_leveled.rs:97-116 | over any run of saves the number of erases is the number of saves that bring something new, counted on from the slot in use, divided by the number of slots |
| `WearLeveled.RoundsIsQuotient` | src/hal/wear_leveled.rs:97-116 | the count of rounds in that statement is the integer quotient |
| `WearLeveled.Region.SavingAgainKeepsFlash` | src/hal/wear_leveled.rs:97-104 | saving what is stored already leaves the flash alone |
| `WearLeveled.Region.MaxSlotsExact` | src/hal/wear_leveled.rs:37-41 | the number of slots is the largest that fits the 4 KB behind the header and has a bit each in it |
| `WearLeveled.Region.RegionsIndependent` | src/hal/wear_leveled.rs:89-116 | saving in one region never changes what a region in another sector loads |
| `WearLeveled.Region.SaveAfterCut` | src/hal/wear_leveled.rs:97-116 | after power was lost with k bytes of a record programmed: if a slot was being appended the old record still loads, and a later save is read back exactly when it was stored already or those k bytes leave it the bits it needs; if the sector was being started over, any later save is read back |
| `WearLeveled.Region.LoadAfterRestartCut` | src/hal/wear_leveled.rs:112-115 | while the sector is being started over, a payload loads exactly when its record is the k bytes programmed followed by all ones |
| `WearLeveled.Region.CutCanRuinLaterSave` | src/hal/wear_leveled.rs:97-116 | while a slot is being appended that condition can fail: one programmed zero byte makes a later save of a record beginning with ones unreadable |
| `WearLeveled.Region.RetryAfterCut` | src/hal/wear_leveled.rs:97-116 | repeating the interrupted save always succeeds, whether it was appending a slot or starting the sector over |
| `WearLeveled.Region.RestartForgets` | src/hal/wear_leveled.rs:112-115 | right after the erase that starts a full sector over, no payload but all ones can be loaded |
| `WearLeveled.Region.RestartIsNotAtomic` | src/hal/wear_leveled.rs:97-116 | so a history that contains this state is not atomic: when one record replaces another by starting over, neither being all ones, an interruption can lose both |
| `FlashMap.ChannelToFrom` | src/flash_map.rs:184-212 | decoding a channel record and encoding it gives back the same 32 bytes, for all bytes |
| `FlashMap.ChannelFromTo` | src/flash_map.rs:184-212 | encoding a channel and decoding it gives back every field |
| `ChannelStore.SessionStores` | src/device/storage.rs:215-230 | after any writes since the session reset a slot in a touched sector holds the bitwise AND of all records sent for it, blank if none, and a slot elsewhere what it held before |
| `ChannelStore.RetransmissionHarmless` | src/device/storage.rs:219-230 | identical retransmissions store the record itself |
| `ChannelStore.SessionErasesTouched` | src/device/storage.rs:219-227 | the sectors erased in a session are exactly those written to |
| `ChannelStore.SessionConfined` | src/device/storage.rs:219-230 | a session changes nothing outside the channel table |
| `ChannelStore.Storage.WriteChannel` | src/device/storage.rs:219-230 | one write erases its sector only the first time in a session and then programs the record |
| `ChannelStore.Storage.ResetChannelWriteSession` | src/device/storage.rs:215-217 | the reset forgets the erased sectors and nothing else |
| `ChannelStore.Storage.ReadChannel` | src/device/storage.rs:198-203 | reads the record of the slot |
| `ChannelStore.Storage.IsChannelEmpty` | src/device/storage.rs:205-210 | a channel is empty exactly when its 32 bytes are all ones |
| `ChannelStore.Storage.HandleWriteChannel` | src/cps/mod.rs:361-370 | misaligned addresses and wrong lengths are refused and change nothing; everything else is one session write of the bytes sent |
| `ChannelStore.Storage.HandleReadChannel` | src/cps/mod.rs:264-272 | a channel reads back as the exact bytes in flash, and misaligned addresses are refused |
| `ChannelStore.Storage.WriteChannelRmw` | src/device/storage.rs:275-278 | a single save replaces one record and every other channel keeps its bytes |
| `ChannelStore.SavingOnesDeletes` | src/device/storage.rs:267-278 | saving an all-ones record deletes the channel |
| `ChannelList.Scan` | src/app/chanmgr.rs:107-116 | the loop builds the bitmap of exactly the channels that are not empty and selects the first of them, or the new row |
| `ChannelList.CountIsExact` | src/app/chanmgr.rs:122-124 | the sum of population counts is the number of set positions |
| `ChannelList.ChannelAtIsExact` | src/app/chanmgr.rs:139-153 | a row shows a channel exactly when the channel is marked and that row is its index: the two are mutually inverse |
| `ChannelList.StepMovesOneRow` | src/app/chanmgr.rs:126-137 | a step moves the selected row by exactly one modulo count plus one, the new row being the last |
| `RankSelect.SelectOfRank` | src/app/chanmgr.rs:139-153 | selecting the marked position whose rank is that of a marked position gives the position back |
| `ChannelSearch.FindProgrammedChannel` | src/app/side_ops.rs:55-74 | the loop returns the next programmed channel in the circular order of the table |
| `ChannelSearch.FindNextScanChannel` | src/app/scan.rs:39-61 | the loop returns the next channel that is programmed and in the scan list |
| `ChannelSearch.ScanListBytes` | src/flash_map.rs:263-265 | a channel takes part in a scan if and only if its 32 bytes are not all ones and bit 2 of the sixteenth is set |
| `ChannelSearch.SearchFailsOnlyOnEmpty` | src/app/side_ops.rs:55-74 | a search fails exactly when no channel is eligible |
| `ChannelSearch.SearchMovesOne` | src/app/side_ops.rs:55-74 | from an eligible channel a search moves by exactly one in the circular order of eligible channels |
| `ChannelSearch.BackwardIsInverse` | src/app/scan.rs:39-61 | the backward search undoes the forward one, and conversely, on eligible channels |
| `ChannelSearch.HopsAdvanceRank` | src/app/scan.rs:99-107 | k hops in one direction move the rank by k in that direction, modulo the number of eligible channels |
| `ChannelSearch.RoundVisitsEachOnce` | src/app/scan.rs:99-107 | one round of hops, upwards or downwards, visits every eligible channel exactly once and ends where it began |
| `ChannelSearch.HopsBack` | src/app/scan.rs:99-107 | any number of hops is undone by as many in the other direction |
| `FreqScan.HopEndsInBand` | src/app/scan.rs:63-76 | a frequency hop from anywhere ends inside the band if and only if an upward one starts at most a step below it, a downward one at most a step above it |
| `FreqScan.HopInBand` | src/app/scan.rs:63-76 | inside the band a hop moves by exactly one step, or to the other end if and only if less than a step is left |
| `FreqScan.HopsReachBand` | src/app/scan.rs:63-118 | from below the band k upward hops reach it if and only if k steps cover the distance |
| `FreqScan.HopBelowRange` | src/app/scan.rs:63-76 | so a scan started at 10 MHz, which can be typed in, hops outside the synthesizer's range |
| `FreqScan.DownUndoesUpExactly` | src/app/scan.rs:63-76 | inside the band a hop down undoes a hop up exactly when the hop up did not wrap, or wrapped from the very end |
| `FreqScan.BandRound` | src/app/scan.rs:63-76 | hopping in either direction from the end it starts at visits each raster frequency once, in order, and returns to that end |
| `FreqScan.SameRasterExactly` | src/app/scan.rs:63-76 | scans up and down visit the same frequencies if and only if the band is a whole number of steps wide |
| `Keypad.EventQueue.Push` | src/device/keypad.rs:103-111 | the ring buffer holds the youngest eight of the events before and the new one |
| `Keypad.EventQueue.Pop` | src/device/keypad.rs:113-121 | the oldest event is taken out, if there is one |
| `Keypad.YoungestEight` | src/device/keypad.rs:103-111 | up to eight events are all kept, and of more exactly the eight newest |
| `Keypad.Keypad.Poll` | src/device/keypad.rs:170-224 | one scan changes the pad as specified and queues its events behind those waiting |
| `Keypad.Keypad.PollKeys` | src/app/mod.rs:857-862 | the poll-then-drain loop hands on exactly the events of its scan, in order: none is ever dropped |
| `Keypad.EventGrammar` | src/device/keypad.rs:170-224 | over every run the events are, press by press, Press, Long if the key has one and was held, any repeats after it, Single exactly when there was no Long, and Release, the last press possibly still open; the keys are those that settled, in order |
| `Keypad.DebouncedState` | src/device/keypad.rs:177-182 | the believed key is what was last seen in two scans running |
| `Keypad.LongAfterOneSecond` | src/device/keypad.rs:184-193 | a key held down reports Long exactly when it is one of the ten that have one and the time held, added up over the wrapping 16-bit counter, reaches 10,000 ticks |
| `Keypad.FirstRepeat` | src/device/keypad.rs:192-204 | the first repeat of a held key comes exactly at the first reading at which Up or Down has been held for 15,000 ticks, and other keys never repeat |
| `Keypad.NextRepeat` | src/device/keypad.rs:192-204 | each further repeat comes exactly at the first reading 1,000 ticks or more after the last one |
| `Keypad.PressBegins` | src/device/keypad.rs:177-224 | whatever came before, a key seen anew in two scans reports Press and starts with the hold counter at zero |
| `Keypad.GlitchForgiven` | src/device/keypad.rs:174-180 | one scan that sees something else neither ends a press nor counts towards it |
| `NameEdit.NameEdit.Start` | src/app/name_edit.rs:33-38 | the buffer is taken over and the cursor put on its first zero |
| `NameEdit.NameEdit.MoveCursor` | src/app/name_edit.rs:40-57 | the cursor moves as specified for any buffer, after closing a tap in progress |
| `NameEdit.NameEdit.Backspace` | src/app/name_edit.rs:59-69 | the in-place shift removes the place before the cursor and blanks the last one |
| `NameEdit.NameEdit.InsertAtCursor` | src/app/name_edit.rs:71-83 | the in-place shift opens a place at the cursor and drops the last one, unless the cursor is past the end |
| `NameEdit.NameEdit.PressDigit` | src/app/name_edit.rs:85-101 | a key press cycles the tap in progress or inserts the key's first character |
| `NameEdit.NameEdit.Tick` | src/app/name_edit.rs:103-110 | the sixtieth idle tick closes the tap |
| `NameEdit.EditorRefines` | src/app/name_edit.rs:33-110 | started on a hole-free buffer, every sequence of actions leaves the buffer equal to the edited text followed by zeros, with the cursor in the text or at its end |
| `NameEdit.HoleFreeExactly` | src/app/name_edit.rs:33-110 | the cursor can never be put past the text exactly when the buffer the editor starts on has no zero in front of a character |
| `NameEdit.MultiTap` | src/app/name_edit.rs:85-110 | k taps on a key before the timeout close a tap still open on another key and type the (k-1 mod length)th of the key's characters at the cursor and nothing else, the last character being lost when the text is full |
| `NameEdit.Waiting` | src/app/name_edit.rs:103-110 | a tap stays open for fewer than 60 idle ticks in all and closes at the sixtieth |
| `NameEdit.EraseUndoesTyping` | src/app/name_edit.rs:59-101 | erasing what was just typed restores the line, with any earlier tap closed, exactly when the text was not already full |
| `NameEdit.KeyTypes` | src/app/name_edit.rs:3-14 | keys 2 to 9 cycle through their letters of the alphabet in upper case, the same in lower case, and their digit |
| `NameEdit.OtherKeysType` | src/app/name_edit.rs:3-6 | key 0 types the space, key 1 comma, full stop, question mark and 1 |
| `NameEdit.LetterTyped` | src/app/name_edit.rs:3-110 | every letter in either case is typed in front of the cursor by as many taps on its key as its place there, and nothing else changes |
| `Dcs.DcsEncode` | src/drivers/fd6818.rs:695-712 | the shift-register loop computes the specified word |
| `Dcs.WordIsCodeword` | src/drivers/fd6818.rs:691-712 | the word of a code below 4096 has 23 bits, keeps the twelve source bits and is a multiple of the generator 0xC75 over GF(2) |
| `Dcs.OnlyCodeword` | src/drivers/fd6818.rs:691-712 | it is the only 23-bit multiple of the generator with those source bits |
| `Dcs.FindStandardDcs` | src/drivers/fd6818.rs:1169-1181 | the nested loops return the first code of the table some rotation of whose word is the 23-bit input |
| `Dcs.FirstMatchIsFirst` | src/drivers/fd6818.rs:1169-1181 | there is an answer exactly when some code matches, and it is the first that does |
| `Dcs.FullTurn` | src/drivers/fd6818.rs:1173-1178 | 23 rotations give a word back |
| `Dcs.PhaseIndependent` | src/drivers/fd6818.rs:1163-1181 | rotating the input by any number of places never changes the answer |
| `Dcs.FoundAsSentExactly` | src/drivers/fd6818.rs:1163-1181 | a code of the table received at any phase is reported as itself exactly when no earlier entry's word is a rotation of its own |
| `DcsStandard.WordStands` | src/drivers/fd6818.rs:691-712 | for codes below 512 the encoder on 23-bit vectors computes the words of the encoder on numbers |
| `DcsStandard.ToldApart` | src/app/settings.rs:324-336 | two different codes of the standard table have words that are rotations of one another only if they are octal 526 and 645 |
| `DcsStandard.StandardCodesReported` | src/drivers/fd6818.rs:1163-1181 | every code of the standard table, received at any phase, is reported as itself, except that octal 645 is reported as 526 |
| `DcsStandard.Code645NeverReported` | src/drivers/fd6818.rs:1169-1181 | with the standard table 645 is never reported, for any input |
| `Tuning.CorrectionInverts` | src/drivers/fd6818.rs:1417-1451 | correcting a tuned word gives back the word or one less: the word exactly when the remainder of the first division leaves room for the second-order term |
| `Tuning.CalibrationLaw` | src/drivers/fd6818.rs:438-441 | the table's step is 5 for every place a calibration byte is off 8, and 0 above 16; the move is upwards exactly for bytes 9 to 16 |
| `Tuning.TunedAsIntendedExactly` | src/drivers/fd6818.rs:1417-1434 | over all 32-bit frequencies the word is moved by half a part in a million for every place off the middle, in the right direction, if and only if the product fits the 32-bit arithmetic |
| `Tuning.UncalibratedUntouched` | src/drivers/fd6818.rs:1417-1434 | a blank calibration byte, or any other beyond the table, leaves every word alone |
| `Tuning.HardwareRangeFits` | src/drivers/fd6818.rs:1417-1434 | in the synthesizer's range, up to 1.12 GHz, the product fits if and only if the calibration byte is neither 0 nor 16 or the frequency is below about 1.0737 GHz |
| `Tuning.TopOfRangeMistuned` | src/drivers/fd6818.rs:1417-1434 | it does happen: at 1.12 GHz with calibration byte 0 the word is moved by 18 units of 10 Hz instead of 448 |
| `Tuning.Synthesizer.SetFrequency` | src/drivers/fd6818.rs:1417-1434 | for every frequency the two registers together hold the tuned word, which is the one intended if and only if the product fits |
| `Tuning.ToneRoundTrip` | src/drivers/fd6818.rs:684-689 | a tone up to 396.7 Hz sent and read back through the thirteen bits kept of the register is a tenth of a hertz less, 0 apart; a higher one comes back more than 396 Hz too low |
| `Tuning.FindStandardCtcss` | src/drivers/fd6818.rs:1157-1161 | the first tone within 0.9 Hz is found, and none exactly when no tone is that close |
| `Tuning.ToneRecognisedExactly` | src/drivers/fd6818.rs:1143-1161 | in a table of tones at least 2 Hz apart a tone sent and read back is recognised as itself and as no other if and only if it is at most 396.7 Hz |
| `Tuning.StandardTonesRecognised` | src/app/settings.rs:312-317 | so every one of the fifty standard tones is |
| `Spectrum.Analyzer.Poll` | src/app/spectrum.rs:147-166 | the method does in place what a tick of the runs below does |
| `Spectrum.Analyzer.Dispatch` | src/app/spectrum.rs:136-262 | a key event has the specified effect, keeps the invariant and tunes only on leaving: the overlay takes the key first, Exit leaves and returns the radio to the master frequency, and an early release stops the listening before the key's own work |
| `Spectrum.PollKeepsValid` | src/app/spectrum.rs:147-227 | the peak is never blacklisted, and listening without a peak means that nothing is, through every tick |
| `Spectrum.DispatchKeeps` | src/app/spectrum.rs:229-375 | and through every key event, the frequency overlay included |
| `Spectrum.BlacklistPersists` | src/app/spectrum.rs:130-375 | in every run without a restart a blacklisted bar keeps its mark, and the receiver is tuned to its frequency if and only if that is the master frequency and the radio goes back to it during the run |
| `Spectrum.OnlyLeavingReturnsHome` | src/app/spectrum.rs:136-145 | in such a run without the end of a Morse transmission the radio goes back exactly when the run leaves the analyser; what is tuned to afterwards is not the analyser's doing |
| `Spectrum.MasterFrequencyComesBack` | src/app/spectrum.rs:130-145 | it does happen: for every master frequency from 320 kHz on, a signal found on it and blacklisted is tuned to again on leaving |
| `Spectrum.OnlyPeakBecomesMarked` | src/app/spectrum.rs:229-319 | a bar becomes blacklisted exactly when Side1 is released early outside the overlay with the peak on it |
| `Spectrum.SweepTakesTurns` | src/app/spectrum.rs:147-198 | as long as no unmarked bar reaches the trigger, ticks in wide or narrow mode tune to the unmarked bars in circular order, one or two readings a tick, and listen to nothing |
| `Spectrum.StopsAtFirstSignal` | src/app/spectrum.rs:147-207 | the first reading on an unmarked bar that reaches the trigger stops the sweep within its tick: the radio listens on that bar, having tuned to the unmarked bars before it and to nothing after it |
| `Spectrum.ListensUntilSilent` | src/app/spectrum.rs:209-227 | listening ends exactly with the thirtieth silent tick in a row, tunes to nothing and shows what it hears in the peak's bar; the sweep then goes on with the bar it had stopped at |
| `Spectrum.BlacklistsWhatIsHeard` | src/app/spectrum.rs:168-227 | the blacklist key marks the bar being listened to if and only if its signal had become the peak: a peak held from before that is as strong is marked in its place |
| `Spectrum.WrongBarMarked` | src/app/spectrum.rs:168-319 | it does happen: a strong signal on bar 0 fades, a weaker one is heard on bar 1, and the key marks bar 0 |
| `Spectrum.PeakIsLoudest` | src/app/spectrum.rs:168-187 | in a quiet sweep that starts without a peak, the peak is for up to 1025 readings the first of the strongest unmarked bars so far |
| `Spectrum.PeakLasts` | src/app/spectrum.rs:168-187 | a peak outlasts exactly 1024 measurements that are no stronger, and the next one takes its place however weak |
| `Spectrum.RoundVisitsUnmarked` | src/app/spectrum.rs:168-198 | a whole quiet round tunes to exactly the bars that are not blacklisted and ends where it began |
| `Spectrum.TypedFrequencyCentred` | src/app/spectrum.rs:343-375 | six digits typed into the overlay put the middle bar on that frequency in kHz unless it is too low, and start the sweep over with blank bars |
| `Spectrum.PanUndoneExactly` | src/app/spectrum.rs:264-272 | Up and Down move the window by the pan step as far as 32 bits go, and Down undoes Up exactly if it moved by all of it |
| `Spectrum.ScanStepTurns` | src/app/spectrum.rs:274-282 | key 1 takes the next wider raster, 10 Hz after 100 kHz, and key 7 undoes it |
| `Spectrum.SettingsUndoneExactly` | src/app/spectrum.rs:284-311 | the keys that lower ceiling, trigger and pan step undo those that raise them exactly short of the limits |
| `Spectrum.FewerBars` | src/app/spectrum.rs:337-341 | key 4 halves the number of bars from 128 to 16, then goes back to 128, and starts the sweep over |
| `Ani.FromRaw` | src/device/radio.rs:264-288 | the id is the three bytes stored, in order; separator index 0 to 5 is digit 10 to 15 and anything above is 14; group index 1 to 6 is digit 10 to 15, anything above 14, and 0 is none |
| `Ani.JudgedExactly` | src/device/radio.rs:519-590 | the frame one radio sends is answered with its id exactly when the separators agree and the target is the receiver or its group code three times |
| `Ani.DtmfReceiver.PollDtmf` | src/device/radio.rs:532-565 | a poll acts on the digits collected as specified, the stale part of the 16-digit buffer playing no part and its bound never being passed |
| `Ani.DtmfReceiver.FinishFrame` | src/device/radio.rs:567-590 | the collected digits are judged and dropped |
| `Ani.Collected` | src/device/radio.rs:544-557 | digits with fewer than 40 idle polls between them are collected whole, each sixteen being judged and dropped on the way |
| `Ani.BurstJudged` | src/device/radio.rs:532-565 | a burst is judged once, when the squelch closes or the timeout runs out, and leaves the receiver empty |
| `Ani.JudgedWholeExactly` | src/device/radio.rs:532-590 | the answer to a burst is the one to its digits as a whole if and only if there are fewer than sixteen of them, or their number modulo sixteen is not seven, or the last seven are no call for this radio |
| `Ani.BurstsIndependent` | src/device/radio.rs:532-590 | over any sequence of bursts each is judged on its own |
| `Ani.CallDelivered` | src/device/radio.rs:519-590 | end to end: however the seven digits are spaced below the timeout and however they end, the receiver reports the sender exactly under the condition of `JudgedExactly` |
| `Ani.StoredCallDelivered` | src/main.rs:193-198 | between two radios given by their stored bytes a call is reported as coming from the sender's three stored bytes exactly when the stored separators mean the same and the target is the receiver's stored id or three times its stored group digit |
| `Ani.StoredDigits` | src/device/radio.rs:519-530 | on the air a call is the three target digits, the sender's separator and the sender's id, in this order |
| `Settings.RadioRoundTrip` | src/flash_map.rs:694-832 | radio settings that reading can produce survive writing and reading |
| `Settings.RadioKeptExactly` | src/flash_map.rs:694-832 | reading and writing bytes 0 to 27 keeps them exactly when every one is in its range |
| `Settings.NearestInRange` | src/flash_map.rs:694-832 | reading and writing moves each of the bytes 0 to 27 to the nearest value in its range |
| `Settings.RadioSwitches` | tools/chirp_bfk6_aura.py:248-254 | bytes 0 to 6 are the fields that the programming software's structure has there |
| `Settings.RadioLevels` | tools/chirp_bfk6_aura.py:255-261 | so are bytes 7 to 13 |
| `Settings.RadioModes` | tools/chirp_bfk6_aura.py:262-270 | bytes 14 to 20, the receive offset signed |
| `Settings.RadioKeys` | tools/chirp_bfk6_aura.py:271-277 | and bytes 21 to 27 |
| `Settings.RecordKeptExactly` | src/flash_map.rs:694-832 | reading and writing keeps all 212 bytes exactly when those of the radio, boot-screen and APRS settings are in range, byte 161 zero and the coordinates valid or the not-set value; the tune and the battery calibration are always kept |
| `Settings.BootRoundTrip` | src/flash_map.rs:694-832 | boot-screen settings survive writing and reading |
| `Settings.NotesRoundTrip` | src/flash_map.rs:699-702 | the boot tune survives writing and reading |
| `Settings.AprsRoundTrip` | src/flash_map.rs:694-832 | region-lock and APRS settings, signed coordinates and the not-set value included, survive writing and reading |
| `Settings.RecordRoundTrip` | src/flash_map.rs:694-832 | the whole record survives writing and reading |
| `Settings.WindowsPartition` | src/cps/mod.rs:187-237 | the five windows cut the 212 bytes without gap or overlap, each small enough for one frame |
| `Settings.HostTransfers` | tools/chirp_bfk6_aura.py:26-42 | at each of the programming software's five addresses there is a window of the size it transfers, and together they are the record |
| `Settings.WrittenParts` | src/cps/mod.rs:283-338 | a window write changes its own window, to the normal form of the data, and no other |
| `Settings.FullUpload` | src/cps/mod.rs:283-338 | from any stored settings, once all five windows of an image have been written, in any order and however often, the settings are those of the image |
| `Settings.UploadOfDownload` | src/cps/mod.rs:187-338 | uploading what was downloaded, in part or in whole, changes nothing |
| `Settings.SettingsWindows.HandleWrite` | src/cps/mod.rs:274-359 | whole-window writes store the updated record; any other length or address is refused and stores nothing |
| `Settings.SettingsWindows.HandleRead` | src/cps/mod.rs:187-237 | each window reads back as its part of the record that is stored, or of the defaults |
| `Digits.DeciHzToDigits` | src/flash_map.rs:102-107 | the backwards loop fills the buffer with the number's last digits |
| `Digits.DigitsToDeciHz` | src/flash_map.rs:98-100 | the fold computes the number the digits spell |
| `Digits.ValueOfSpell` | src/flash_map.rs:98-107 | n digits keep a number modulo 10^n |
| `Digits.SpellOfValue` | src/flash_map.rs:98-107 | reading and writing digits keeps the bytes exactly when all are digits |
| `Digits.SpelledDigit` | src/flash_map.rs:102-107 | each digit spelled is the one worth ten to the number of digits behind it |
| `Digits.PackedDigits` | src/flash_map.rs:109-132 | four packed bytes are eight decimal digits, the highest pair in the last byte |
| `Digits.Bcd4RoundTrip` | src/flash_map.rs:109-132 | four packed bytes keep a frequency modulo 1.6 GHz |
| `Digits.Bcd4KeptExactly` | src/flash_map.rs:109-132 | so it is kept exactly when it is below 1.6 GHz |
| `Digits.Bcd4Kept` | src/flash_map.rs:109-132 | packed decimal digits are kept by decoding and encoding |
| `Vfo.VfoFromTo` | src/flash_map.rs:348-380 | every field of a VFO record survives encoding and decoding |
| `Vfo.VfoToFrom` | src/flash_map.rs:348-380 | the layout keeps exactly the records whose three unused bytes are zero |
| `Vfo.DirectionSet` | src/flash_map.rs:401-409 | setting the shift direction gives it back modulo eight and leaves the call target in the same byte alone |
| `Vfo.TargetSet` | src/flash_map.rs:411-424 | setting the call target gives it back if it is in the contact table and leaves the direction alone |
| `Vfo.NarrowSet` | src/flash_map.rs:426-437 | setting the width gives it back and leaves the other flags alone |
| `Vfo.ToneKeptExactly` | src/app/convert.rs:25-109 | a tone setting survives being stored as a code exactly when it is none, a CTCSS value above 250 or a code of the table |
| `Vfo.CodeKeptExactly` | src/app/convert.rs:25-109 | a stored code survives being decoded exactly when it is not one of the forty that name no table entry |
| `Vfo.CodeMeaning` | src/app/convert.rs:25-39 | a stored code stands for exactly one tone: 1 to 105 the codes of the table, 106 to 210 the same inverted, from 251 on tenths of Hz, the others none |
| `Vfo.MenuPositionKept` | src/app/convert.rs:93-157 | a tone chosen by menu position and stored as a code is found at that position again, so stepping never sticks |
| `Vfo.RestoredExactly` | src/app/side.rs:60-95 | saving and loading a side restores all of it exactly when the frequency is a multiple of 10 Hz below 1 GHz, the offset a multiple of 100 Hz below 1 GHz, the direction at most 7, the target in the contact table and the tones expressible |
| `Side.VfoComesBack` | src/app/side_ops.rs:96-185 | whatever channel loads, reverse toggles and changes of power, width, tones, target and shift happen between leaving the VFO and returning, all its settings come back and the radio is on the same two frequencies, exchanged if and only if reverse was used an odd number of times |
| `Side.AlwaysOnFrequency` | src/app/side.rs:39-59 | over every run of loads, keys, settings and searches the radio is on the receive frequency and, in the VFO, on the one above or below it by the offset as far as 32 bits go, in a channel on its transmit frequency, exchanged under reverse |
| `Side.OneFrequencyPair` | src/app/side.rs:39-59 | mode, frequencies, direction, offset and reverse determine the two frequencies |
| `Side.StoredChannelTaken` | src/app/side.rs:112-126 | a channel loaded from its 32 bytes sets every setting from its own bytes and puts the radio on its two frequencies |
| `Side.StoredVfoTaken` | src/app/side.rs:61-85 | a VFO record loaded from its 32 bytes sets frequency and offset from their decimal digits and every other setting from its own bytes, and puts the radio on the two frequencies |
| `Side.ChannelBytes` | tools/chirp_bfk6_aura.py:217-229 | the fields of a channel stand where the programming software's structure has them |
| `Side.VfoBytes` | tools/chirp_bfk6_aura.py:231-245 | so do those of a VFO record |
| `Side.VfoShiftSet` | src/app/settings_ops.rs:219-247 | direction and offset set in the VFO touch nothing else and move the transmit frequency at once |
| `Side.ChannelOffsetKept` | src/app/settings_ops.rs:235-247 | an offset set for a channel is read back with the channel's direction exactly when it is not zero and no limit is hit |
| `Side.MenuSets` | src/app/settings_ops.rs:199-218 | power, width, tones and target set in turn are what the side then has, and nothing else changes |
| `Side.KeysCycle` | src/app/side_ops.rs:146-160 | the power key goes from high to low, to middle and back to high, the width key back and forth |
| `Side.SearchTakesChannelAlong` | src/app/search.rs:154-165 | a search result saved from channel mode changes only frequency and tones of the VFO if and only if the channel has the VFO's width, power and target |
| `Side.SavedDuringVisit` | src/app/mod.rs:564-570 | if the VFO records are saved while a side is on a channel, that side's VFO is found after a restart on the channel's frequency modulo 1 GHz, or on the initial one where that is zero; hence on the one it was left on exactly when these are equal |
| `Side.ChannelDirectionKept` | src/app/settings_ops.rs:219-247 | a shift direction set for a channel is read back with the old offset exactly when there is an offset and no limit is hit, or neither direction nor offset |
| `Side.Side.ToggleVfoChannel` | src/app/side_ops.rs:96-130 | the key does to the side's fields what the run theorems assume of it, and keeps the radio on its frequencies |
| `Side.Side.ChangeSetting` | src/app/settings_ops.rs:199-290 | so do the settings of the menu that belong to a side, which end with the radio on the frequencies they ask for |
| `ChannelEdit.ShiftKeptExactly` | src/app/chanmgr.rs:182-202 | a shift is derived again as it was set exactly when it is a proper one: whole tens of hertz, no underflow, and a result the packed digits hold |
| `ChannelEdit.OpenThenSync` | src/app/chanmgr.rs:182-228 | opening the editor and storing the shift again keeps the transmit frequency exactly when it is below 1.6 GHz |
| `ChannelEdit.ChannelEdit.SyncTxFreq` | src/app/chanmgr.rs:194-202 | only the transmit frequency is written, modulo what its digits hold |
| `ChannelEdit.ChannelEdit.CommitFreq` | src/app/chanmgr.rs:382-389 | a typed receive frequency takes its shift along, exactly under the condition of `ShiftKeptExactly`, and the transmit frequency then differs from it by the offset in hertz |
| `ChannelEdit.ChannelEdit.CommitOffset` | src/app/chanmgr.rs:391-398 | a typed offset moves the transmit frequency only |
| `Satellites.SatFromTo` | src/flash_map.rs:474-503 | a stored satellite record is never taken for an empty slot, and only its padding is lost |
| `Satellites.HostRecordRead` | tools/update_satellites.py:478-501 | the radio reads from the host's record the name cut or filled to ten characters, both frequencies, both tones and the altitude that were put into it |
| `Satellites.SaveSatellites` | src/device/storage.rs:390-399 | one erase and the writes of the slots in use leave each slot with its record or blank, and the rest of the chip unchanged |
| `Satellites.LoadSatellites` | src/device/storage.rs:369-379 | the list loaded is the decoding of the slots |
| `Satellites.LoadAfterSave` | src/device/storage.rs:369-399 | loading a saved list gives it back without padding, so unchanged exactly where the padding was zero |
| `Satellites.SatStorage.WriteSatellite` | src/device/storage.rs:408-424 | one write erases the list's sector only the first time in a session and then programs the record |
| `Satellites.SatStorage.ResetSatWriteSession` | src/device/storage.rs:401-406 | the reset makes the next write erase again and changes nothing else |
| `Satellites.SatSessionStores` | src/device/storage.rs:404-424 | once anything was written in a session, every slot holds the bitwise AND of the records sent for it and is empty if there was none, so what was stored before is gone |
| `Chirp.WrittenChannelTunes` | tools/chirp_bfk6_aura.py:594-626 | on a channel written by the programming software the radio is on the memory's two frequencies cut to 10 Hz, with its name, width, power and, unless they are CTCSS of 25.0 Hz or less, its tones |
| `Chirp.RefusedExactly` | tools/chirp_bfk6_aura.py:594-626 | a memory is refused if and only if one of its frequencies is negative or 1.6 GHz and more, or a DCS code is not in the list |
| `Chirp.HostDigits` | tools/chirp_bfk6_aura.py:345-370 | the software's packed digits are the firmware's for every frequency it does not refuse |
| `Chirp.ShownAsUsedExactly` | tools/chirp_bfk6_aura.py:551-592 | what the software shows of a channel is what the radio does on it, for the transmit frequency if and only if the stored one is not 0, and for the power if and only if its byte is 2 or less |
| `Chirp.ToneShownExactly` | tools/chirp_bfk6_aura.py:382-391 | a tone is shown as the radio uses it, or raises an error, for exactly the forty codes that stand for none |
| `Chirp.WrittenIsShown` | tools/chirp_bfk6_aura.py:551-626 | a memory that was accepted is shown again as it was entered, its frequencies cut to 10 Hz |

## Left out

- Register access, SPI and GPIO transfers, delays, the receive interrupt and its ring buffer's capacity: I/O without an
  algorithm. `NorFlash.read_status` polling is assumed to wait long enough.
- Everything the display, menus, launcher, LEDs and audio paths do, and the modulation setting of the spectrum analyser:
  presentation or single-branch logic.
- Satellite tracking, APRS and SSTV encoding, FM radio, the boot logo and the raw flash dump.
- The serial retry loops, timeouts and argument parsing of the host tools, and their use of the frame functions.
- `handle_read` and `handle_write` for the VFO, FM and satellite addresses: address checks around the record operations.
- `ScanState` dwell times, squelch debouncing and resume modes: counters that decide when a hop happens, not where to.
- Settings.SettingsWindows: the wear-leveled region below is abstracted as one optional record; that saving and loading
  through the region behave like one is what `WearLeveled.Region.SaveFromReady` and `LastSaveWins` show.
- Settings.Record: the flat record of the source is grouped into radio, boot, tune, battery and APRS parts.
- Settings.SettingsWindows.HandleRead: answers for the five settings addresses only, other addresses being other windows.
- ChannelStore.Storage.WriteChannel: the erased-sector bit mask is a set of sector numbers; only channel numbers inside
  the eight sectors of the table are modelled, which the wire addresses guarantee.
- SectorRewrite.RewriteRecord: requires a record outside the scratch sector, as every caller's is; that this sector is not
  also claimed by another record is not checked.
- WearLeveled.Region.Save: that each state while a record is programmed holds a prefix of it, as `CutOff` takes it, is not
  part of the contract, and an erase cut off half-way is not modelled.
- Keypad.Keypad.Poll: the matrix scan itself is an input; `is_pressed` and `any_pressed` are not modelled.
- Tuning.CorrectionInverts: stated where both products fit 32 bits; `HardwareRangeFits` says where that is. Products wrap
  as in a release build; a debug build would stop instead.
- Tuning.ToneRoundTrip: for tones up to 2080 Hz, above which the product of the sending side overflows.
- Dcs.WordIsCodeword: codes of 4096 and more are encoded as the source does but are not shown to be codewords.
- DcsStandard.StandardCodesReported: the table is the one of the firmware, written as bit vectors; inverted polarity, which
  the source does not look for, is not modelled.
- Spectrum.BlacklistPersists: frequencies tuned to while the analyser is closed belong to other modes; keys that the key
  lock or the TX-tone function take before the analyser sees them are not events of the model.
- Side.VfoComesBack: the modulation, which the backup leaves out, the display name of other channels and the frequency
  step are not followed; editing or deleting the channel a side is on counts as loading one, or as returning when none
  is left.
- Side.SavedDuringVisit: the save and the load through flash are those of `Vfo.RestoredExactly`.
- Vfo.RestoredExactly: stated for any DCS table of 105 entries.
- Ani.CallDelivered: digits are bytes; that the chip delivers the four-bit digits it was sent is not modelled.
- Chirp.WrittenChannelTunes: tones are the two triples that the library's splitting functions hand over, which are not part
  of this model, and the software's list of DCS codes is taken to be the radio's.
- Keypad.LongAfterOneSecond: for keys held less than 2^32 ticks in all, after which the counter would start over.
- Spectrum.PeakIsLoudest: marks and readings of a sweep that is not interrupted by keys.
