# Verified models of the sink application

Dafny 4.11 models of the parts of the ADK sink application (`apps/sink`) that hold most of its
state and branching, with proofs of what they keep. `dafny verify dfyconfig.toml` checks
everything. Source files are cited relative to the repository's root.

Code that updates state in place is modelled twice: as a class whose methods follow the C
statement by statement, and as functions on a value of its state. Each method is proved to
change the class's state exactly as its function changes the value, the properties of whole runs
are lemmas about the functions, and each class that answers messages has a `Serve` that ends where
the run ends.

| component | modules |
|---|---|
| embedded protocol buffers (`epb.c`) | `EpbWire` (format, and what a scan makes of any bytes), `EpbScan` (scanning what was written, and when a scan returns), `EpbVarints` (varints of any length), `EpbParts` (setters short of room), `Epb` (the C functions), `EpbRoundTrip` |
| generated requests (`epb_MmBp.c`) | `MmBp` |
| CRC-32 (`crc32.c`) | `Crc32` |
| button gestures (`sink_buttons.c`) | `Buttons`, `ButtonTaps`, `ButtonEdges`, `ButtonReports`, `ButtonsTask` |
| button patterns (`sink_buttonmanager.c`) | `ButtonPattern` |
| AVRCP lists (`sink_avrcp_browsing.c`) | `AttributeList`, `FolderItems` |
| AVRCP browsing channel (`sink_avrcp_browsing.c`, `sink_avrcp.c`) | `BrowsingChannel`, `BrowsingRuns`, `BrowsingTask` |
| AVRCP control commands and volume (`sink_avrcp.c`, `sink_volume.c`) | `AvrcpControl`, `AvrcpControlTask`, `AvrcpVolume` |
| BLE advertising data (`sink_ble_advertising.c`) | `BleAdvertising` |
| headset audio routing (`sink_audio_routing.c`, `sink_audio.c`, `sink_a2dp.c`) | `AudioRouting`, `AudioRouter` |
| shared | `Ints` (C integer widths), `Seqs`, `Wrappers` |

C integers are taken with a 32-bit `int`. Wherever the C wraps or truncates, the model says so
with `%`. The libraries under `src/lib`, message delivery and timers are the environment: a
message held on a condition word is delivered while the word is zero, a timer only while it is
pending, and a library confirms only what it was asked.

## Where the code differs from its own intent or its standards

The models follow the code. Each of these has a lemma with the exact condition or the input.

- Every `ret < 0` in `epb.c` compares a `uint16`, so no failed step stops a setter: a field can
  be written without its tag (`EpbParts.TornField`, `EpbParts.SetterIsAtomicIff`), and a scan that
  meets a one-byte tag of unknown wire type never moves on (`EpbScan.ScanHaltsIff`); after a
  two-byte one it goes on from the second byte, and may return (`EpbScan.UnknownWireTypeCanHalt`).
- A length that wraps the 16-bit offset back to the start of its own field, or of any field before
  it, sends the scan round for ever (`EpbScan.LengthWrapHaltsIff`).
- The first field with a tag wins, where the Protocol Buffers encoding says the last; a negative
  `int32` takes five bytes, not ten.
- `epb_varint32_pack_size` disagrees with the setter on signed values (`MmBp.SignedPackSizeIff`).
- A tap of one button and a tap of another within the multiple-tap time are reported as a double of
  the second (`ButtonReports.TapsWithinTime`).
- The pattern matcher misses patterns whose first button recurs (`ButtonPattern.MatcherExactIff`).
- The attribute loop goes outside a list whose last attribute ends after offset 65527
  (`AttributeList.LoopStopsIff`), and the folder item loop is sound exactly where its 16-bit
  offsets do not wrap, or stop it when they do (`FolderItems.LoopSoundIff`); an announced item
  length of 0xFFFD keeps it at the start for ever (`FolderItems.LoopsForEver`).
- A control connection can take a slot whose browsing channel is still closing: a slot counts as
  free by its zeroed address alone, without a look at its browsing channel. The slot then forgets
  the old instance and waits for a channel that is not there (`BrowsingChannel.AgreementIff`,
  `BrowsingChannel.SlotTaken`, `BrowsingChannel.ForsakenStays`).
- In the peer build play and pause are taken while their connection is down; the controls are
  dropped on delivery but counted still, and a connection coming up does not clear the count. Twice
  is enough to have every user action refused (`AvrcpControl.CountExactIff`, `AvrcpControl.PlayLost`,
  `AvrcpControl.JammedByPlay`, `AvrcpControl.JammedUntilDown`).
- A vendor command delivered while its connection is down leaves that connection waiting for a
  confirmation that cannot come (`AvrcpControl.PendingRealIff`, `AvrcpControl.ConfirmationLost`,
  `AvrcpControl.StuckUntilDown`).
- A local name that exactly fits is advertised whole but tagged as shortened
  (`BleAdvertising.ExactFitIsCalledShortened`).
- With more than 127 volume steps, one press of a volume button sends the absolute volume to the
  end of its scale (`AvrcpVolume.PressIsNoJump`).
- Call audio that takes the place of other audio is routed with no source named: the name is set at
  the choice, and clearing the other audio resets it (`AudioRouting.CallEndsRouted`).
- In the choice between two streaming devices, `avrcpIndex=0?1:0` is an assignment of 0, so for a
  first AVRCP link that is not connected the first is looked at again, not the second, and a device
  that says it is paused can end up routed (`AudioRouting.ChosenIsIntendedIff`,
  `AudioRouting.PausedChosenIff`, `AudioRouting.PausedEndsRouted`).

## Model

| member | source | states |
|---|---|---|
| `EpbScan.VarintRoundTrip` | apps/sink/epb.c:93-109 | wherever the varint of a uint32 stands in a buffer, the decoder reads that value and consumes exactly its bytes |
| `EpbScan.VarintSize` | apps/sink/epb.c:239-245 | one byte for every seven significant bits, at most five |
| `EpbScan.ReadTagEncoded` | apps/sink/epb.c:71-80 | a one- or two-byte tag is read back whole wherever it stands, with the wire type of its first byte |
| `EpbScan.ValueLengthEncoded` | apps/sink/epb.c:40-64 | on every value the setters write, the skip length is the value's whole length |
| `EpbScan.ScanFindsFirst` | apps/sink/epb.c:66-91 | on every message of valid fields shorter than 0xFFFF bytes and for every tag, the scan returns, with the value offset of the first field with the tag and 0xFFFF if there is none |
| `EpbScan.ScanIsStable` | apps/sink/epb.c:70-89 | a scan that has finished gives the same outcome however many more turns it is allowed |
| `EpbScan.UnknownWireTypeLoops` | apps/sink/epb.c:60-61 | at a one-byte tag of unknown wire type the scan never moves on |
| `EpbScan.ScanHaltsIff` | apps/sink/epb.c:66-91 | when a message goes on with a one-byte tag of unknown wire type, the scan returns if and only if the tag looked for is in a field before it, or is it |
| `EpbScan.UnknownWireTypeCanHalt` | apps/sink/epb.c:66-91 | after a two-byte tag of unknown wire type the scan may return: it does on 83 00 05, whatever other tag it looks for |
| `EpbScan.LengthWrapHaltsIff` | apps/sink/epb.c:50-56 | when a message goes on with a length-delimited field whose tag, length and data bring the 16-bit offset back to the start of any field before it, or to its own, the scan returns if and only if the tag looked for is in a field before it, or is its tag |
| `EpbScan.GoesBackIff` | apps/sink/epb.c:66-91 | whatever bytes follow valid fields: if the turn there leads back to the start of a field or to where it was, or is a match, the scan returns if and only if it is a match or a field has the tag |
| `EpbScan.FinishedInTime` | apps/sink/epb.c:66-91 | on any bytes the scan finishes within as many turns as there are bytes, or never |
| `EpbScan.HaltsIffInTime` | apps/sink/epb.c:66-91 | on any bytes and for any tag the scan returns if and only if it has returned within as many turns as there are bytes |
| `EpbVarints.VarintEnds` | apps/sink/epb.c:93-109 | wherever it stands, a varint of at most five bytes is read whole, as the sum of its seven-bit groups modulo 2^32 |
| `EpbVarints.VarintCut` | apps/sink/epb.c:97-107 | of a longer one, with a byte after the fifth, five bytes are taken and the value is the sum of their groups modulo 2^32 |
| `EpbVarints.VarintTruncated` | apps/sink/epb.c:98-99 | one that goes on to the end of the buffer within five bytes is not read |
| `EpbVarints.NegativeReadBack` | apps/sink/epb.c:93-109 | every negative int32 written as the ten bytes of its 64-bit form is read back, from the first five |
| `EpbVarints.TagOfAnyLength` | apps/sink/epb.c:71-74 | a tag of any length is read whole as the low 32 bits of its first byte and the seven bits of each after it |
| `EpbVarints.FixedOrZero` | apps/sink/epb.c:111-127 | a fixed number is the four bytes there, lowest first, and 0 where they are not all there |
| `EpbVarints.VarintFieldTurn` | apps/sink/epb.c:40-89 | a varint field of any length is matched at its tag, and otherwise skipped whole |
| `EpbVarints.Fixed64Turn` | apps/sink/epb.c:47-49 | a field of 64 fixed bits is skipped whole |
| `EpbParts.PartsAreEncoding` | apps/sink/epb.c:266-278 | the pieces a setter writes one by one make up the field's encoding |
| `EpbParts.EnoughRoom` | apps/sink/epb.c:266-370 | with room for the whole field it is appended whole and its length returned |
| `EpbParts.WholeIffRoom` | apps/sink/epb.c:221-252 | the contents grow by the whole field's length if and only if there was room for it |
| `EpbParts.SetterIsAtomicIff` | apps/sink/epb.c:266-370 | a setter leaves all or nothing of a field exactly when the whole fits or no non-empty piece does |
| `EpbParts.ReturnCountsLost` | apps/sink/epb.c:221-346 | a setter returns the number of bytes it wrote less the number of its pieces that were lost, modulo 2^16 |
| `EpbParts.TornField` | apps/sink/epb.c:221-233 | one byte of room and a two-byte tag: the value is written without its tag and 0 is returned |
| `Epb.Packer.constructor` | apps/sink/epb.c:254-259 | nothing is written yet and the buffer is as it was handed over |
| `Epb.Packer.Append` | apps/sink/epb.c:320-328 | appends the bytes if they fit, otherwise changes nothing and returns 0xFFFF; bytes past the write position are untouched |
| `Epb.Packer.PackTag` | apps/sink/epb.c:221-233 | appends the one- or two-byte tag, high byte first, if it fits |
| `Epb.Packer.PackVarint32Bits` | apps/sink/epb.c:235-252 | the do-while loop over five bytes appends the base-128 varint of any uint32, if it fits |
| `Epb.Packer.SetUint32` | apps/sink/epb.c:266-278 | appends tag and varint, each on its own condition of room, and returns the 16-bit sum of the two results |
| `Epb.Packer.SetInt32` | apps/sink/epb.c:280-283 | the same with the value's two's complement |
| `Epb.Packer.SetSint32` | apps/sink/epb.c:285-289 | the same with the value's zigzag |
| `Epb.Packer.SetEnum` | apps/sink/epb.c:296-299 | the same with a 16-bit value |
| `Epb.Packer.SetFixed32` | apps/sink/epb.c:301-370 | appends tag and four little-endian bytes, each on its own condition of room |
| `Epb.Packer.SetBytes` | apps/sink/epb.c:330-346 | appends tag, length and data, each on its own condition of room |
| `Epb.Unpacker.constructor` | apps/sink/epb.c:128-132 | the object reads the buffer it was given |
| `Epb.Unpacker.GetVarint32Bits` | apps/sink/epb.c:93-109 | the loop returns size and value of the varint there, five and the groups of five bytes modulo 2^32 if it is longer, or 0xFFFF with the caller's value kept if the buffer ends inside it |
| `Epb.Unpacker.GetValueLength` | apps/sink/epb.c:40-64 | the length of the value there by wire type, 0xFFFF for an unknown one, in 16-bit arithmetic |
| `Epb.Unpacker.GetTag` | apps/sink/epb.c:71-74 | the tag at an offset and the offset after it, without reading past the buffer |
| `Epb.Unpacker.GetTagValueOffset` | apps/sink/epb.c:66-91 | where the scan returns, the loop returns its result, without reading outside the buffer |
| `Epb.Unpacker.GetUint32` | apps/sink/epb.c:143-155 | the varint at the offset the scan finds |
| `Epb.Unpacker.GetInt32` | apps/sink/epb.c:157-160 | that value as a signed number |
| `Epb.Unpacker.GetSint32` | apps/sink/epb.c:162-169 | that value with the zigzag undone |
| `Epb.Unpacker.GetEnum` | apps/sink/epb.c:176-179 | the low 16 bits of that value |
| `Epb.Unpacker.GetFixed32` | apps/sink/epb.c:207-214 | the four little-endian bytes at the offset the scan finds |
| `Epb.Unpacker.GetBytes` | apps/sink/epb.c:181-195 | where the bytes after the length start, and the low 16 bits of the length |
| `EpbRoundTrip.ZigZagRoundTrip` | apps/sink/epb.c:162-169 | the getter undoes the setter's zigzag for every int32 |
| `EpbRoundTrip.ZigZagOrdersByMagnitude` | apps/sink/epb.c:285-289 | zigzag orders signed values by magnitude, the negative first on a tie |
| `EpbRoundTrip.Int32RoundTrip` | apps/sink/epb.c:280-283 | every int32 comes back through uint32, a negative one in five bytes |
| `EpbRoundTrip.WriteAllIff` | apps/sink/epb.c:221-370 | a list of setter calls writes exactly the list's encoding if it fits, and the packed size is the encoding's if and only if it fits |
| `EpbRoundTrip.ReadAsEncoded` | apps/sink/epb.c:143-214 | wherever a field's value stands, the matching getter reads it back |
| `EpbRoundTrip.NumberOfAnyBytes` | apps/sink/epb.c:143-155 | of any bytes, the getter gives 0 for a varint the buffer cuts short, and otherwise the groups of up to five bytes modulo 2^32 |
| `EpbRoundTrip.NegativeFound` | apps/sink/epb.c:143-160 | behind any valid fields without its tag, a negative number in ten bytes is found and given back by the signed getter |
| `EpbRoundTrip.GetReturnsFirst` | apps/sink/epb.c:66-214 | for every list of valid fields written with room and every tag in it, the scan returns and the matching getter yields the value of the first field with the tag |
| `EpbRoundTrip.OrderIrrelevant` | apps/sink/epb.c:66-214 | with distinct tags, every permutation of the fields gives the same getter result for every tag present |
| `MmBp.VarintPackSize` | apps/sink/epb.c:383-396 | the size loop returns the length of tag and varint |
| `MmBp.LengthDelimitedPackSize` | apps/sink/epb.c:403-406 | the length of tag, length and data, modulo 2^16 |
| `MmBp.Fixed32PackSize` | apps/sink/epb.c:398-401 | the length of the field, whatever its value |
| `MmBp.SignedPackSizeIff` | apps/sink/epb.c:387-388 | the signed size is the setter's exactly for values from 0 up and from -0x78000000 to below -0x8000000 |
| `MmBp.SignedPackSizeOfMinusOne` | apps/sink/epb.c:387-388 | for -1 the size function says five bytes and the setter writes one |
| `MmBp.AuthFieldsRising` | apps/sink/epb_MmBp.c:163-214 | the fields of every authentication request are valid and have rising, so distinct, tags |
| `MmBp.AuthRequestRecoverable` | apps/sink/epb_MmBp.c:163-214 | each member of a packed authentication request is found whole under its own tag with its own value, and an absent one is not found |
| `MmBp.InitRequestRecoverable` | apps/sink/epb_MmBp.c:268-299 | the same for an initialisation request |
| `MmBp.SendDataRequestRecoverable` | apps/sink/epb_MmBp.c:397-424 | the same for a request to send data |
| `MmBp.AuthRequestPackSize` | apps/sink/epb_MmBp.c:131-161 | the computed size is the length of the request's encoding, modulo 2^16 |
| `MmBp.InitRequestPackSize` | apps/sink/epb_MmBp.c:251-266 | the same for an initialisation request |
| `MmBp.SendDataRequestPackSize` | apps/sink/epb_MmBp.c:382-395 | the same for a request to send data |
| `MmBp.AddVarint` | apps/sink/epb_MmBp.c:141-143 | one number more: the running size stays the length of the fields so far, modulo 2^16 |
| `MmBp.AddBytes` | apps/sink/epb_MmBp.c:138-140 | one optional bytes field more, with the same |
| `MmBp.PackAuthRequest` | apps/sink/epb_MmBp.c:163-214 | writes exactly the encoding if it fits and nothing past what it returns; the returned size is the encoding's length if and only if it fits |
| `MmBp.PackInitRequest` | apps/sink/epb_MmBp.c:268-299 | the same for an initialisation request |
| `MmBp.PackSendDataRequest` | apps/sink/epb_MmBp.c:397-424 | the same for a request to send data |
| `MmBp.SetOptional` | apps/sink/epb_MmBp.c:182-185 | one optional bytes field more in the buffer, if present |
| `MmBp.SetNumber` | apps/sink/epb_MmBp.c:186-191 | one number more in the buffer |
| `Crc32.ShiftInjective` | apps/sink/crc32.c:23-24 | one division step loses nothing |
| `Crc32.ShiftLinear` | apps/sink/crc32.c:23-24 | one division step is linear over xor |
| `Crc32.FeedBitsInjective` | apps/sink/crc32.c:29-43 | different registers stay different whatever message follows |
| `Crc32.ByteStep` | apps/sink/crc32.c:11 | the table step on a byte is eight steps of the bit-serial register |
| `Crc32.DetectsBurst` | apps/sink/crc32.c:29-43 | equal-length messages that differ only inside a window of at most 32 bits never have the same CRC |
| `Crc32.DetectsByteBurst` | apps/sink/crc32.c:29-43 | the same for a window of at most four bytes |
| `Crc32.CrcOfSplit` | apps/sink/crc32.c:29-43 | continuing a CRC over the second part is the CRC of the whole, at every split |
| `Crc32.ResidueIff` | apps/sink/crc32.c:29-43 | four bytes after a message make the CRC 0x2144df1c if and only if they are the message's CRC, low byte first |
| `Crc32.CrcTable` | apps/sink/crc32.c:17-27 | the on-demand table entry is eight division steps of its index |
| `Crc32.Do1` | apps/sink/crc32.c:11 | one macro step feeds the byte's eight bits, low bit first |
| `Crc32.Do2` | apps/sink/crc32.c:12 | feeds two bytes in order |
| `Crc32.Do4` | apps/sink/crc32.c:13 | feeds four bytes in order |
| `Crc32.Do8` | apps/sink/crc32.c:12-14 | the unrolled step feeds eight bytes in order |
| `Crc32.Crc32` | apps/sink/crc32.c:29-43 | for every buffer, length and start value the result is the bit-serial reflected CRC with polynomial 0xEDB88320; a null buffer gives 0 |
| `Buttons.ThresholdsOnceInOrder` | apps/sink/sink_buttons.c:294-332 | for any configuration and any interleaving of inputs and timers: a pending hold timer means the hold is short, long or very long, and since the last press the thresholds were reported at most once each, rising |
| `Buttons.ReleaseKeepsTimers` | apps/sink/sink_buttons.c:445-514 | a release keeps that, and cancels the hold's timers if there was a hold |
| `Buttons.InternalKeepsTimers` | apps/sink/sink_buttons.c:294-332 | a threshold keeps it, and arms the next timer only below the last |
| `ButtonReports.GroupNamesItsTaps` | apps/sink/sink_buttons.c:275-292 | every configuration and run: the single or double that closes a group of taps names the inputs of the short report that opened it |
| `ButtonReports.TimersNameInputsDown` | apps/sink/sink_buttons.c:294-344 | every configuration and run: each threshold and each repeat names the level inputs now down, the threshold by how many were passed since the press, and one is reported at every firing while any is down, but for the very long hold of the regulator pin alone |
| `ButtonReports.ChangesReported` | apps/sink/sink_buttons.c:414-600 | every configuration and run: an input change reports the edges that changed, then a press that arms both hold timers if a level input went down, and otherwise, if one went up, a release that names those that were down, by the thresholds passed since the press, and disarms them |
| `ButtonReports.BootReports` | apps/sink/sink_buttons.c:111-141 | the first reading reports a press if a level input is down, and the edge inputs that are |
| `ButtonReports.TapsWithinTime` | apps/sink/sink_buttons.c:446-492 | for any level inputs: one tap is a single; a tap of the same inputs more makes it a double; and so does a tap of others, as a double of those |
| `ButtonReports.ThreeTaps` | apps/sink/sink_buttons.c:466-475 | three taps of the same inputs are reported as a triple at the third release |
| `ButtonTaps.EveryReleaseAccounted` | apps/sink/sink_buttons.c:275-332 | one level input, every run: releases = singles + 2 doubles + 3 triples + hold releases + taps dropped by holds + taps still counted, and every group of taps reported exactly one short press |
| `ButtonTaps.ReleaseNamesThreshold` | apps/sink/sink_buttons.c:491-502 | the release of a hold is reported under the highest threshold crossed since the press |
| `ButtonTaps.RepeatOnlyWhileHeld` | apps/sink/sink_buttons.c:334-344 | the repeat timer is pending only while the input is held |
| `ButtonTaps.ReleaseCounts` | apps/sink/sink_buttons.c:445-514 | each release adds exactly one to what is accounted for |
| `ButtonTaps.InternalCounts` | apps/sink/sink_buttons.c:294-332 | a threshold moves the open group of taps to the dropped ones and loses none |
| `ButtonTaps.MultipleCounts` | apps/sink/sink_buttons.c:275-292 | the multiple-tap timer turns the open group into a double or a single of as many taps |
| `ButtonEdges.EdgesFollowInput` | apps/sink/sink_buttons.c:527-552 | one edge input, every run: rises and falls are reported in turn and the last report says how the input stands |
| `ButtonEdges.EdgeReports` | apps/sink/sink_buttons.c:527-552 | a change of the input is reported once, as a rise if it rose and a fall if it fell, and nothing else is |
| `ButtonsTask.Task.constructor` | apps/sink/sink_buttons.c:77-109 | nothing held, counted or pending |
| `ButtonsTask.Task.ButtonDetected` | apps/sink/sink_buttons.c:390-407 | reports, or cancels the repeat timer when there is nothing to report |
| `ButtonsTask.Task.TapReleased` | apps/sink/sink_buttons.c:454-477 | one more tap of the same inputs; the third is reported and ends the group |
| `ButtonsTask.Task.HoldReleased` | apps/sink/sink_buttons.c:480-502 | reports a release by the time held, and opens a group after a short one |
| `ButtonsTask.Task.ReleaseInput` | apps/sink/sink_buttons.c:446-516 | the whole of a release, with the timers it cancels |
| `ButtonsTask.Task.DetectLevel` | apps/sink/sink_buttons.c:414-517 | acts as the level function whose runs `Buttons` and `ButtonTaps` prove about |
| `ButtonsTask.Task.DetectEdge` | apps/sink/sink_buttons.c:527-552 | acts as the edge function whose runs `ButtonEdges` proves about |
| `ButtonsTask.Task.CheckDetection` | apps/sink/sink_buttons.c:561-600 | edges first, then levels, then the input is remembered |
| `ButtonsTask.Task.CheckForChangeAfterInit` | apps/sink/sink_buttons.c:117-141 | the first reading of the inputs, from which every run starts |
| `ButtonsTask.Task.MultipleTimerMessage` | apps/sink/sink_buttons.c:275-292 | reports the group as a double or a single and closes it |
| `ButtonsTask.Task.InternalTimerMessage` | apps/sink/sink_buttons.c:294-332 | drops the group, moves to the next threshold, arms the timer for the one after, and reports |
| `ButtonsTask.Task.RepeatTimerMessage` | apps/sink/sink_buttons.c:334-344 | arms the timer again and reports |
| `ButtonsTask.Task.Serve` | apps/sink/sink_buttons.c:165-349 | serving any run of inputs and timers ends where the run ends, so the lemmas about runs hold of it |
| `ButtonPattern.SendsOnlyPattern` | apps/sink/sink_buttonmanager.c:408-451 | for every configured pattern, the event is sent only when the presses end with it |
| `ButtonPattern.SendsExactly` | apps/sink/sink_buttonmanager.c:408-451 | if the first button does not recur in the pattern, it is sent exactly when they do |
| `ButtonPattern.FalseStartMisses` | apps/sink/sink_buttonmanager.c:440-449 | if it recurs, the pattern up to the recurrence and then the pattern is missed |
| `ButtonPattern.MatcherExactIff` | apps/sink/sink_buttonmanager.c:408-451 | over histories of real presses, the matcher is exact if and only if the first button does not recur or a place of the pattern is empty |
| `ButtonPattern.TrackFrom` | apps/sink/sink_buttonmanager.c:421-449 | after every history the progress indexes a button, and is 0 or below the number of matches if it was to begin with |
| `ButtonPattern.TrackIsMatched` | apps/sink/sink_buttonmanager.c:421-449 | progress i means the last i presses are the first i of the pattern |
| `ButtonPattern.Matcher.constructor` | apps/sink/sink_buttonmanager.c:79-90 | no pattern and no progress |
| `ButtonPattern.ConvertButtons` | apps/sink/sink_buttonmanager.c:206-219 | a mask per button, and the place of the last button given, or the old count if none is |
| `ButtonPattern.ButtonIsBit` | apps/sink/sink_buttonmanager.c:208-212 | a button is the one bit before its number, and no button none |
| `ButtonPattern.OnlyVregIgnored` | apps/sink/sink_buttonmanager.c:252-253 | of the inputs only the regulator pin is ever ignored, and only when one of the first 16 is down with it |
| `ButtonPattern.Matcher.AddPatternMapping` | apps/sink/sink_buttonmanager.c:197-234 | fills an unused slot only, from the progress it has: the event, a mask per button, and as number of matches the place of the last button given; other slots stay |
| `ButtonPattern.Matcher.OfferPress` | apps/sink/sink_buttonmanager.c:421-449 | one press moves one pattern's progress on in place and sends its event exactly if it completes it |
| `ButtonPattern.Matcher.CheckForButtonPatternMatch` | apps/sink/sink_buttonmanager.c:408-451 | one press is added to every pattern's history and the events sent are those of the patterns completed, in slot order |
| `ButtonPattern.Matcher.ButtonDetected` | apps/sink/sink_buttonmanager.c:247-263 | only short and long presses count, without the regulator pin beside ordinary buttons |
| `AttributeList.ListReadBack` | apps/sink/sink_avrcp_browsing.c:851-899 | every attribute list is read back attribute by attribute, whatever follows it |
| `AttributeList.AnyBytes` | apps/sink/sink_avrcp_browsing.c:851-899 | any bytes are the encoding of whole attributes and a rest; the loop yields exactly those in order, then the truncated one if its header is there, clipped to what is left |
| `AttributeList.GetItemAttributesCfm` | apps/sink/sink_avrcp_browsing.c:847-913 | wherever the loop stops by `AttributeList.LoopStopsIff`: it reads only inside the list, and displays the attributes of the list that have text |
| `AttributeList.OneAttribute` | apps/sink/sink_avrcp_browsing.c:866-898 | one turn reads one attribute inside the list and moves on by at least a header, without a 16-bit wrap |
| `AttributeList.LoopStopsIff` | apps/sink/sink_avrcp_browsing.c:864-898 | for every list: the loop, with its 16-bit test, stops inside the list if and only if the last attribute ends at offset 65527 or before, and otherwise goes outside it |
| `FolderItems.ElementReadBack` | apps/sink/sink_avrcp_browsing.c:139-224 | a media element is parsed back with all its attributes, whatever follows it in the list |
| `FolderItems.PlayerReadBack` | apps/sink/sink_avrcp_browsing.c:80-129 | a media player item is parsed back |
| `FolderItems.FolderReadBack` | apps/sink/sink_avrcp_browsing.c:234-272 | a folder item is parsed back |
| `FolderItems.ItemsReadBack` | apps/sink/sink_avrcp_browsing.c:1062-1095 | every well-formed list is handed on item by item, each once, in order and whole, unknown types skipped |
| `FolderItems.WellFormedList` | apps/sink/sink_avrcp_browsing.c:1062-1095 | the loop's 16-bit offsets are enough for every well-formed list with room for one more header |
| `FolderItems.LoopSoundIff` | apps/sink/sink_avrcp_browsing.c:1062-1095 | for any bytes: the loop takes every header inside the list, in order and none twice, if and only if each offset walked in unbounded arithmetic fits in 16 bits with one more header or the wrapped test ends the loop there; it then stops |
| `FolderItems.LoopsForEver` | apps/sink/sink_avrcp_browsing.c:1093-1094 | an announced length of 0xFFFD at the start: the loop is unfinished after any number of turns |
| `FolderItems.WrapCanStop` | apps/sink/sink_avrcp_browsing.c:1093-1094 | on 00 FF FF the offset wraps and the loop still stops |
| `FolderItems.KeptOfList` | apps/sink/sink_avrcp_browsing.c:102-111 | of every written list, the features kept are octets 7 and 8, low first, of the selected player's last entry; without one, those kept before |
| `FolderItems.MediaPlayerItem` | apps/sink/sink_avrcp_browsing.c:80-129 | discards a short header, clips the name, and keeps octets 7 and 8 of the features of the selected player only |
| `FolderItems.FolderItem` | apps/sink/sink_avrcp_browsing.c:234-272 | discards a short header and clips the name |
| `FolderItems.ElementAttributes` | apps/sink/sink_avrcp_browsing.c:188-210 | the nested loop yields the first so many attributes of what follows, and never passes the end of the list |
| `FolderItems.MediaElementItem` | apps/sink/sink_avrcp_browsing.c:139-224 | discards a short header or a name longer than the list, and otherwise reads name and attributes |
| `FolderItems.HandItem` | apps/sink/sink_avrcp_browsing.c:1067-1091 | an item goes to the function for its type, and to none if the type is unknown |
| `FolderItems.OneItem` | apps/sink/sink_avrcp_browsing.c:1063-1095 | one turn hands on one item and either ends the loop or moves on inside the list |
| `FolderItems.GetFolderItemsCfm` | apps/sink/sink_avrcp_browsing.c:1010-1095 | wherever the loop is sound by `FolderItems.LoopSoundIff`: it ends, reads only inside the list, hands on its items in order, and keeps octets 7 and 8 of the features of the selected player's last entry |
| `BrowsingChannel.AgreementIff` | apps/sink/sink_avrcp_browsing.c:445-658 | every run: connection and library agree at every state, about every instance, if and only if the slot is never taken over, by another instance or by its link closing, while the browsing channel is not down |
| `BrowsingChannel.EveryCallProper` | apps/sink/sink_avrcp_browsing.c:478-522 | every run in which the slot is kept: the library is asked to connect only when idle, to disconnect only when up, and for requests only on a channel that is up, for a listing only when none is outstanding |
| `BrowsingChannel.OneListingUnderItsScope` | apps/sink/sink_avrcp_browsing.c:770-821 | every run in which the slot is kept: at most one listing is outstanding, the lock then says its scope, and on a connected channel the lock is held only for an outstanding listing |
| `BrowsingChannel.IdleIsForThisChannel` | apps/sink/sink_avrcp_browsing.c:533-548 | every run in which the slot is kept: a pending request to close an idle channel names the present instance, and none is pending when the channel is down |
| `BrowsingChannel.ForgetsIff` | apps/sink/sink_avrcp.c:740-745 | while they agree, an event forgets an instance whose channel the library still has if and only if it is another instance taking the slot while the channel is not down |
| `BrowsingChannel.SlotTaken` | apps/sink/sink_avrcp.c:721-745 | from any state with the channel up on the active connection: control goes down and another instance takes the slot while the old channel is still closing |
| `BrowsingChannel.ChannelComesUp` | apps/sink/sink_avrcp_browsing.c:559-605 | such a state is reached |
| `BrowsingChannel.ForsakenStays` | apps/sink/sink_avrcp_browsing.c:478-497 | from there nothing asked for reaches the library, until the remote device opens a channel, the link closes or the slot is taken again |
| `BrowsingChannel.ConfirmedKeptIff` | apps/sink/sink_avrcp_browsing.c:591-605 | a channel that comes up is kept if and only if its control connection is up and active |
| `BrowsingChannel.AskConserves` | apps/sink/sink_avrcp_browsing.c:948-999 | a request that is taken is sent or held exactly once, and no other is touched |
| `BrowsingChannel.DeliveryConserves` | apps/sink/sink_avrcp_browsing.c:365-434 | a held request that is delivered is sent or held again unless the connection is no longer the one asked for |
| `BrowsingRuns.AskedWhenDown` | apps/sink/sink_avrcp_browsing.c:282-313 | a request made with no channel: one is asked for, and when it comes up the request is delivered and sent |
| `BrowsingRuns.AskedWhileClosing` | apps/sink/sink_avrcp_browsing.c:478-497 | a request made while the channel closes: once it is down a new one is asked for |
| `BrowsingRuns.ListingWaits` | apps/sink/sink_avrcp_browsing.c:770-821 | a listing asked for while another is outstanding waits for its answer and is then sent, under its own scope |
| `BrowsingRuns.AnswerFrees` | apps/sink/sink_avrcp_browsing.c:1109-1144 | the answer to a listing frees the lock exactly if the control connection is still up |
| `BrowsingRuns.IdleCloses` | apps/sink/sink_avrcp_browsing.c:533-548 | after item attributes came a request to close the idle channel is pending, and closes it when delivered; a request sent before that cancels it |
| `BrowsingRuns.IndicatedIsAnswered` | apps/sink/sink_avrcp_browsing.c:559-580 | a channel the remote device asks for is answered and awaited |
| `BrowsingRuns.DownDropsHeld` | apps/sink/sink_avrcp_browsing.c:591-658 | a channel that goes down or fails takes what was held for it along, and frees the lock |
| `BrowsingRuns.ForgottenWhenDown` | apps/sink/sink_avrcp_browsing.c:591-658 | the instance is forgotten when control connection and channel are both down, unless the channel was wanted again |
| `BrowsingRuns.LinkLostAndLeft` | apps/sink/sink_avrcp.c:3500-3525 | the link closing leaves nothing connected, held or locked; leaving the connection starts to close its channel and drops what waits |
| `BrowsingChannel.StepKeeps` | apps/sink/sink_avrcp_browsing.c:445-658 | every event that keeps the slot keeps the agreement of connection and library about every instance, channel and lock |
| `BrowsingTask.Connection.Retrieve` | apps/sink/sink_avrcp_browsing.c:770-821 | locks the scope and asks for the listing, or holds it for the lock, or connects and holds it for the channel |
| `BrowsingTask.Connection.SendCommand` | apps/sink/sink_avrcp_browsing.c:282-313 | sends the command on a connected channel, otherwise connects and holds it |
| `BrowsingTask.Connection.RetrieveTrack` | apps/sink/sink_avrcp_browsing.c:709-755 | the same for a track, on the connection it names |
| `BrowsingTask.Connection.Handle` | apps/sink/sink_avrcp_browsing.c:365-434 | a held message is asked for again |
| `BrowsingTask.Connection.Serve` | apps/sink/sink_avrcp_browsing.c:445-658 | serving any run of events ends where the run ends, so the theorems about runs hold of it: if the slot was kept, connection and library agree and every call was a proper one |
| `AvrcpControl.OneUnconfirmed` | apps/sink/sink_avrcp.c:340-368 | every run: at most one passthrough, group or vendor request is unconfirmed, only while one is pending; vendor data is kept only then; the counted queue is at most four |
| `AvrcpControl.ActionQueues` | apps/sink/sink_avrcp.c:2698-3127 | every user action with its conditions met queues exactly its own press and release, or its one control, and assumes its own status of a device that says none; without them it changes nothing |
| `AvrcpControl.QueueIsCounted` | apps/sink/sink_avrcp.c:2787-2985 | every run whose controls are queued behind the check for room: the queue never holds more than is counted, and so never more than four |
| `AvrcpControl.CountExactIff` | apps/sink/sink_avrcp.c:502-648 | every run from an exact count: the count is that of the queue at every state if and only if each control is delivered while connected, each one relayed finds room, and the connection is only left with nothing queued |
| `AvrcpControl.PlayLost` | apps/sink/sink_avrcp.c:2794-2814 | a play command on a connection that is down is taken, delivered to nothing, and leaves two controls counted that are not queued |
| `AvrcpControl.JammedByPlay` | apps/sink/sink_avrcp.c:692-735 | two of them fill the count, and the connection coming up leaves it full |
| `AvrcpControl.JammedUntilDown` | apps/sink/sink_avrcp.c:395-398 | from there, until a disconnection or a relayed control, every run queues and sends nothing |
| `AvrcpControl.RelayedUncounted` | apps/sink/sink_avrcp.c:1350 | relayed controls are queued without the check: any number of them is counted as at most four |
| `AvrcpControl.RelayCountedIff` | apps/sink/sink_avrcp.c:319-324 | from an exact count, a relayed control that is queued is counted if and only if the count is below four |
| `AvrcpControl.SentInOrder` | apps/sink/sink_avrcp.c:502-648 | without flush or disconnection the controls sent are the first of those queued, in order, and the rest wait |
| `AvrcpControl.QueueDrains` | apps/sink/sink_avrcp.c:502-648 | a connection that stays up, with its requests confirmed, sends all that is queued, in order, and counts it down to none |
| `AvrcpControl.VendorsInOrder` | apps/sink/sink_avrcp.c:4085-4142 | vendor commands are sent oldest first, one until it is confirmed; one asked for while nothing is pending goes before those that wait to be delivered |
| `AvrcpControl.PauseNeedsPlaying` | apps/sink/sink_avrcp.c:2853-2860 | a connection that comes up is assumed stopped, so a pause is ignored until it is known to play |
| `AvrcpControl.PendingRealIff` | apps/sink/sink_avrcp.c:4085-4142 | every run: whatever is pending has its request in the library, at every state, if and only if each vendor command that is sent is sent while connected |
| `AvrcpControl.ConfirmationLost` | apps/sink/sink_avrcp.c:4127-4138 | a vendor command held over a disconnection leaves the next connection pending with nothing unconfirmed |
| `AvrcpControl.StuckUntilDown` | apps/sink/sink_avrcp.c:1017-1035 | from there no control is sent until the connection next goes down |
| `AvrcpControl.SeekRoundTrip` | apps/sink/sink_avrcp.c:2996-3084 | a seek and its end, with room for both, queue a press and a release and leave the assumed play status as it was |
| `AvrcpControl.RefusedOnlyOnce` | apps/sink/sink_avrcp.c:300-313 | the end of a seek never begun is refused once, and queued the second time |
| `AvrcpControlTask.Connection.QueueSpace` | apps/sink/sink_avrcp.c:395-398 | between 0 and 4 while the count is in range |
| `AvrcpControlTask.Connection.Act` | apps/sink/sink_avrcp.c:2787-2985 | a user action queues the controls named for it, action by action, and assumes the status named, or changes nothing; play and pause do not test the connection, as in the peer build |
| `AvrcpControlTask.Connection.VendorUniquePassthroughRequest` | apps/sink/sink_avrcp.c:4085-4142 | sends at once only if nothing is pending and no data is kept, otherwise holds; false if refused or out of memory |
| `AvrcpControlTask.Connection.Serve` | apps/sink/sink_avrcp.c:502-648 | serving any run of events ends where the run ends, so the theorems about runs hold of it: one request open at a time, a counted queue, an exact count and a pending request that is real, each under its condition |
| `AvrcpVolume.VolumeInRange` | apps/sink/sink_avrcp.c:3351-3418 | every run with 1 to 127 steps and inputs in range: the absolute volume and every volume told stay within 0 to 127, and the level within the steps |
| `AvrcpVolume.LocalRoundTrip` | apps/sink/sink_avrcp.c:3407 | a level sent as an absolute volume and back never gains, and loses one step exactly if 127 times it is no multiple of the steps |
| `AvrcpVolume.AbsoluteRoundTrip` | apps/sink/sink_avrcp.c:1618 | an absolute volume as a level and back never gains and loses less than one level and one unit |
| `AvrcpVolume.PressIsNoJump` | apps/sink/sink_avrcp.c:3360-3367 | a press of one level clear of the ends leaves the absolute volume off its maximum if and only if there are at most 127 steps |
| `AvrcpVolume.UpThenDown` | apps/sink/sink_volume.c:270-327 | clear of the ends, a press up and one down restore both volumes |
| `AvrcpVolume.PressesNeverOverstate` | apps/sink/sink_volume.c:270-327 | any number of presses up from a level not overstated do not overstate it |
| `AvrcpVolume.ToldAtMostTwice` | apps/sink/sink_avrcp.c:3382-3390 | the remote device is told at most twice for each registration |
| `AvrcpVolume.RegisteredKnows` | apps/sink/sink_avrcp.c:3351-3418 | every run: while a registration is open, the volume is the last the remote device was told or set itself |
| `AvrcpVolume.RegisteredThenPressed` | apps/sink/sink_avrcp.c:3382-3390 | a registration is answered with the volume now and then with the volume after the next press, and is used up |
| `AvrcpVolume.PressMoves` | apps/sink/sink_volume.c:270-327 | a press moves the level by one within 0 and one below the steps; one that cannot sends the volume to that end of its scale |
| `AvrcpVolume.RemoteSets` | apps/sink/sink_avrcp.c:1600-1624 | a volume the remote device sets is taken as it is and the level follows it, rounded down, without an answer; with no connection it is ignored |
| `AvrcpVolume.UpAndDown` | apps/sink/sink_avrcp.c:3394-3418 | a connection that comes up has its stored level and the volume of its worth; one that went down is told nothing and keeps its volume |
| `AvrcpVolume.Connection.VolumeStepChange` | apps/sink/sink_avrcp.c:3351-3392 | moves the absolute volume by the change, to an end on a zero change, within 0 to 127 |
| `AvrcpVolume.Connection.VolumeCheckA2dp` | apps/sink/sink_volume.c:270-327 | moves the level by one within the steps, and the absolute volume by its worth |
| `AvrcpVolume.Connection.Serve` | apps/sink/sink_avrcp.c:3351-3418 | serving any run of events ends where the run ends: every volume in range if the inputs were, and at most two notifications for each registration |
| `BleAdvertising.AdvertisingData` | apps/sink/sink_ble_advertising.c:265-328 | for any services, name and address: at most 31 octets, and walking them visits exactly the elements built |
| `BleAdvertising.NameAdvertised` | apps/sink/sink_ble_advertising.c:177-226 | the name element is the longest beginning of the local name that fits, tagged complete exactly if it is whole with an octet to spare, and present exactly if there is a name and room |
| `BleAdvertising.NameFits` | apps/sink/sink_ble_advertising.c:177-226 | the same for any number of free octets |
| `BleAdvertising.ExactFitIsCalledShortened` | apps/sink/sink_ble_advertising.c:193-204 | a name that exactly fits is whole but tagged shortened |
| `BleAdvertising.ServicesAdvertised` | apps/sink/sink_ble_advertising.c:53-165 | the flags are general discoverable and single mode; up to 13 services are listed exactly and tagged complete, of more the first alone and tagged incomplete |
| `BleAdvertising.AddressAdvertised` | apps/sink/sink_ble_advertising.c:236-261 | the address is advertised if and only if the rest leaves ten octets |
| `BleAdvertising.WalkVisitsBuilt` | apps/sink/sink_ble_advertising.c:402-488 | whatever valid elements are encoded, the walk visits exactly those |
| `BleAdvertising.BuiltFromVisited` | apps/sink/sink_ble_advertising.c:402-488 | well-formed data is nothing but the elements visited |
| `BleAdvertising.ListsExactly` | apps/sink/sink_ble_advertising.c:449-477 | a list of services says exactly the services it was made from |
| `BleAdvertising.ServicesElement` | apps/sink/sink_ble_advertising.c:87-165 | the services element fits the free octets |
| `BleAdvertising.SetupFlags` | apps/sink/sink_ble_advertising.c:53-77 | the three octets of the flags element |
| `BleAdvertising.SetupServices` | apps/sink/sink_ble_advertising.c:87-165 | the element with all the build's services if they fit, or the first of them marked incomplete |
| `BleAdvertising.SetupLocalName` | apps/sink/sink_ble_advertising.c:177-226 | the name element, or nothing without a name or room |
| `BleAdvertising.SetupManufacturer` | apps/sink/sink_ble_advertising.c:236-261 | the element with the device address, or nothing without room |
| `BleAdvertising.Grow` | apps/sink/sink_ble_advertising.c:287-300 | the buffer so far with one more chunk behind it |
| `BleAdvertising.SetupBleAdData` | apps/sink/sink_ble_advertising.c:265-328 | the buffer grown piece by piece is the encoding of those elements, and the free count never underflows |
| `BleAdvertising.TurnInsideIff` | apps/sink/sink_ble_advertising.c:398-485 | a turn reads only inside the data if and only if the octets its type needs are there, or of a list the service looked for |
| `BleAdvertising.WalkEndsIff` | apps/sink/sink_ble_advertising.c:398-488 | for any octets: the walk ends without reading outside the data if and only if that holds at every element on its way |
| `BleAdvertising.WellFormedWalk` | apps/sink/sink_ble_advertising.c:398-488 | on well-formed data the walk ends, having noted exactly the elements |
| `BleAdvertising.RemoteControlIff` | apps/sink/sink_ble_advertising.c:490-539 | what is noted of elements makes a remote control if and only if the last flags are not zero and either a complete list holds the HID service or the last appearance is a generic remote control |
| `BleAdvertising.TakenIff` | apps/sink/sink_ble_advertising.c:384-539 | the same of any octets on which the walk stays inside, for the elements at which it stops |
| `BleAdvertising.HandleAdverts` | apps/sink/sink_ble_advertising.c:384-539 | wherever the walk stays inside the data: the device is taken for a remote control if and only if the last flags on the walk are not zero and a list on it holds the HID service or the last appearance is a generic remote control; on well-formed data, the same of its elements |
| `BleAdvertising.HandleElement` | apps/sink/sink_ble_advertising.c:404-485 | notes what one element gives, reading only what its type needs |
| `BleAdvertising.SearchServices` | apps/sink/sink_ble_advertising.c:453-475 | the inner loop finds the service exactly if the list has it, reading no further than it |
| `AudioRouting.OneConnection` | apps/sink/sink_audio_routing.c:302-366 | every run, any statuses, gates and settings: no audio connection is made while an earlier one is live, and a live connection is the one said to be routed |
| `AudioRouting.SelectedIff` | apps/sink/sink_audio_routing.c:866-903 | some call audio is selected if and only if a link with audio has a call or voice recognition is on; the secondary's if it is alone, or both have calls and its priority is higher |
| `AudioRouting.CallEndsRouted` | apps/sink/sink_audio_routing.c:846-948 | ungated call audio selected from the status ends up routed if and only if its link has a codec or it was routed, otherwise nothing is; its connection is live unless test mode dropped it; and its link is the named source unless other audio had to give way, when none is |
| `AudioRouting.HigherPriorityEndsRouted` | apps/sink/sink_audio_routing.c:866-883 | of two calls with audio and codecs, the one whose SCO priority was last set higher ends up routed, the primary on a tie |
| `AudioRouting.ScoEndsRouted` | apps/sink/sink_audio_routing.c:1468-1522 | with no call and no music taken, ungated SCO audio ends up routed if and only if its link has a codec or it was routed; but a routed one that the call gate has just dropped is not routed again in the same pass |
| `AudioRouting.ConnectScoReplaces` | apps/sink/sink_audio_routing.c:1760-1768 | a SCO sink that is not routed replaces what is, and is connected if its link has a codec |
| `AudioRouting.RingIsAlone` | apps/sink/sink_audio_routing.c:904-917 | an incoming call without call audio leaves nothing routed or live |
| `AudioRouting.AllGatedIsSilent` | apps/sink/sink_audio_routing.c:1022-1033 | with every gate closed nothing is routed or live |
| `AudioRouting.MusicEndsRouted` | apps/sink/sink_audio_routing.c:1113-1189 | with no call, ungated music of either stream that is not suspended or chosen against ends up routed, unless a stream that waits to be resumed, or for the secondary a primary that plays, goes before it; if it was not routed, its connection is live if and only if that link has codec settings |
| `AudioRouting.MusicSuspendedForCall` | apps/sink/sink_audio_routing.c:1536-1644 | music of either stream that gives way to a call elsewhere is suspended unless its device is a peer, and the other stream's state is left |
| `AudioRouting.MusicResumed` | apps/sink/sink_audio_routing.c:1113-1142 | suspended music of either stream that is not chosen against is routed again, no longer suspended, and live if and only if its link has codec settings, once it runs and no call is there |
| `AudioRouting.MusicAskedToPlay` | apps/sink/sink_a2dp.c:2943-2969 | with its stream only open it is asked to play: no longer suspended, and nothing routed until it runs |
| `AudioRouting.MusicNotResumed` | apps/sink/sink_a2dp.c:2931-3003 | a peer's stream, or one without signalling, stays suspended, and what was routed gives way all the same |
| `AudioRouting.MusicTakenIff` | apps/sink/sink_audio_routing.c:1022-1189 | the music step takes something if and only if it is not gated and the routing is to be left, or a stream not chosen against waits or is ready |
| `AudioRouting.ReadyIff` | apps/sink/sink_audio_routing.c:1143-1166 | a stream is ready when it starts or runs, unsuspended, as a sink |
| `AudioRouting.MusicEnded` | apps/sink/sink_audio_routing.c:302-366 | music that has ended, with no other audio, is disconnected and not suspended |
| `AudioRouting.MusicGated` | apps/sink/sink_audio_routing.c:1022-1033 | music that is gated gives way, suspended where a call would suspend it |
| `AudioRouting.GivesWayIff` | apps/sink/sink_audio_routing.c:1549-1580 | a stream that gives way is suspended if and only if its device is no peer, and calls are not assumed to suspend it, voice recognition is on, the peer has a call, or the one call is on another device |
| `AudioRouting.ChoiceIff` | apps/sink/sink_audio_routing.c:1038-1090 | the choice is open unless two streams as sinks are streaming with one of them routed; the routing is then left unless switching is on and exactly one says it is paused |
| `AudioRouting.LeftAsItIs` | apps/sink/sink_audio_routing.c:1060-1090 | routing that is to be left stays, whatever is routed |
| `AudioRouting.ChosenIsIntendedIff` | apps/sink/sink_audio_routing.c:1091-1104 | of two streaming devices, the choice is the one that looking at the other index would give, unless index 0 is not connected, index 1 says paused, and the two are not the same to the primary stream |
| `AudioRouting.PausedChosenIff` | apps/sink/sink_audio_routing.c:1038-1104 | a device that says it is paused is chosen exactly then, or when both AVRCP links are the same to the primary stream; as intended, only in the second case |
| `AudioRouting.ChoiceEndsRouted` | apps/sink/sink_audio_routing.c:1038-1189 | of two unsuspended streams the one chosen ends up routed, newly so with a live connection if and only if its link has codec settings, and it is the intended one if and only if index 0 is connected or the two links are the same to the primary stream |
| `AudioRouting.PausedEndsRouted` | apps/sink/sink_audio_routing.c:1101-1102 | with only index 1 connected, belonging to the primary's device and saying paused, the primary ends up routed where the secondary is intended |
| `AudioRouter.Router.SetPriority` | apps/sink/sink_audio.c:184-189 | sets a link's priority; the invalid link sets nothing |
| `AudioRouter.Router.DisconnectActiveSink` | apps/sink/sink_audio_routing.c:1780-1794 | disconnects if something is routed, and then nothing is |
| `AudioRouter.Router.HfpConnectAudio` | apps/sink/sink_audio.c:556-604 | connects the sink only if its link has a codec |
| `AudioRouter.Router.ConnectScoSink` | apps/sink/sink_audio_routing.c:1760-1768 | replaces another routed sink, and leaves this one if it is routed |
| `AudioRouter.Router.A2dpRouteAudio` | apps/sink/sink_audio.c:659-808 | the sink counts as routed, and is connected if there are codec settings |
| `AudioRouter.Router.SuspendA2dpStream` | apps/sink/sink_a2dp.c:2850-2901 | suspended locally, unless a peer |
| `AudioRouter.Router.SetSuspendState` | apps/sink/sink_a2dp.c:2862 | one link's suspend state |
| `AudioRouter.Router.ResumeA2dpStream` | apps/sink/sink_a2dp.c:2929-3005 | by the stream's state: asked to play, routed, or asked to connect |
| `AudioRouter.Router.SuspendDisconnectSource` | apps/sink/sink_audio_routing.c:1536-1644 | suspends a routed stream that a call elsewhere needs silent, and disconnects whatever is routed |
| `AudioRouter.Router.ActiveCallScoAvailable` | apps/sink/sink_audio_routing.c:846-948 | gate, selection, ring and connection of call audio |
| `AudioRouter.Router.SelectCall` | apps/sink/sink_audio_routing.c:866-903 | the sink of the selected call, none if there is none |
| `AudioRouter.Router.RouteSco` | apps/sink/sink_audio_routing.c:920-944 | a SCO sink in place of what was routed, unless it was that |
| `AudioRouter.Router.RouteStream` | apps/sink/sink_audio_routing.c:1144-1166 | a stream in place of what was routed, unless it was that |
| `AudioRouter.Router.ResumeInstead` | apps/sink/sink_audio_routing.c:1113-1128 | a suspended stream resumed in place of what was routed |
| `AudioRouter.Router.Choose` | apps/sink/sink_audio_routing.c:1038-1111 | the stream that the play statuses choose |
| `AudioRouter.Router.A2dpStreamAvailable` | apps/sink/sink_audio_routing.c:1017-1196 | gate, resumption and routing of music |
| `AudioRouter.Router.ScoWithoutCallAvailable` | apps/sink/sink_audio_routing.c:1468-1522 | gate and routing of audio without a call |
| `AudioRouter.Router.Handle` | apps/sink/sink_audio_routing.c:260-366 | the whole cascade, keeping one connection at a time |

## Left out

- Epb.Unpacker.GetUint32: says nothing of an absent tag, because the source's test for it never holds and the code would read at offset 0xFFFF; so do the other getters, and `epb_has_tag` and the `epb_unpack_*` functions that rely on it are not modelled.
- Epb.Unpacker.GetTagValueOffset: required to be called where the scan returns without leaving the buffer; `EpbScan.HaltsIffInTime` says how long to wait to know.
- Epb.Unpacker.GetValueLength: required where the value's first byte is in the buffer, which the source reads without a test.
- Epb.Unpacker.GetInt32: present tags only, as are Epb.Unpacker.GetSint32, Epb.Unpacker.GetEnum, Epb.Unpacker.GetFixed32 and Epb.Unpacker.GetBytes, the last with a length that is whole.
- Epb.Packer.SetBytes: takes the data as a value, so data that overlaps the buffer being written is not captured.
- Epb.Packer.SetFixed32: the little-endian build only.
- `epb_set_bool`, `epb_set_float` and the other one-line wrappers of setters and getters; the base request of `epb_MmBp.c`, which has no fields, is an empty message here.
- ButtonTaps.EveryReleaseAccounted: one level input only, because with several the tap counter also advances when a different set of inputs is released.
- Translation of PIO and capacitive inputs to input bits, debouncing, timer durations, and the table that maps button reports to system events.
- ButtonPattern.Matcher.AddPatternMapping: buttons up to 32, beyond which the source's shift is undefined.
- AttributeList.GetItemAttributesCfm: says nothing of lists on which the loop goes outside, which `AttributeList.LoopStopsIff` names.
- FolderItems.GetFolderItemsCfm: says nothing of what is handed on where the loop goes astray, which `FolderItems.LoopSoundIff` names.
- Display of media attributes and names; the folder path parser of `sinkAvrcpBrowsingSetBrowsedPlayerCfm`.
- BrowsingChannel.EveryCallProper: one slot, runs in which it is kept, and a library that answers only what it was asked and reports nothing of a channel after its ACL link closed; how a slot is chosen, notification registrations and UID counters are not modelled.
- AvrcpControl.QueueIsCounted: one connection of the peer build, and the actions that reach it; which connection a play or pause is sent to, and the operation id each control is sent as, are not modelled. Link policy, aborting of fragmented responses, and connection attempts are not modelled.
- AvrcpVolume.VolumeInRange: the remote volume is taken to be within 0 to 127 and stored levels within the steps, as the profile and the configuration have them; gains, tones and display are left out.
- BleAdvertising.HandleAdverts: says nothing where the walk reads outside the data, which `BleAdvertising.WalkEndsIff` names; names are read only in debug builds; the scan response and connection handling are left out.
- AudioRouting.OneConnection: SCO and A2DP sources of the headset build; USB, wired, FM, subwoofer, soundbar, party mode and speech recognition routing, volumes and the amplifier are not modelled.
- Byte order swaps, authentication helpers, call management, voice prompts, AT commands and the BLE remote control handle single values or forward messages.
