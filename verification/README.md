# The sample path of sigrok, verified

A Dafny model of the code that turns what a logic analyzer or an oscilloscope sends into an ordered
stream of samples, and of the code that stores, filters and re-encodes that stream. `dafny verify
dfyconfig.toml` checks everything.

Code that works by changing things step by step is a class or a method with a loop, and is proved against
functions on values; what the drivers promise is then proved about those functions. Hardware is any
sequence of bytes, transfers or completions; where the device encodes something, the encoding is written down from
its side, and the driver is proved to undo it.

| files | what they model |
|---|---|
| `TriggerScan`, `TriggerExact` | the multi-stage trigger of the fx2lafw driver, on streams cut into transfers |
| `Fx2lafwModel`, `Fx2lafwProbes`, `Fx2lafw` | its acquisition protocol as a state machine, its trigger settings, and the callbacks themselves |
| `Fx2lafwOwnership`, `Fx2lafwOutput`, `Fx2lafwEnding` | what every run of that protocol keeps, what it sends, and what ends it |
| `OlsStream`, `Ols`, `FloorDivision` | the OpenBench Logic Sniffer: run-length decoding into a buffer filled from its end; clock dividers |
| `La8Mangling`, `La8Emission`, `La8`, `La8Rates` | the ChronoVu LA8: reordering of memory, sending with a trigger, sample rates |
| `Hantek`, `GrayCode` | the Hantek oscilloscope: frames rotated around the trigger, the capture state machine, the trigger offset |
| `SigmaLut`, `SigmaTrigger`, `SigmaPinpoint` | the ASIX Sigma trigger: look-up tables, settings, and the search for the exact sample |
| `SigmaUnpack`, `SigmaStream`, `SigmaTimeline` | the ASIX Sigma decoder: clusters of events to samples |
| `SigmaDownload`, `SigmaMemory` | the loop that downloads a recording, which of its chunks is searched for the trigger, and the bytes as the device has written them |
| `ProbeFilter`, `LogicIterator` | the probe filter, and the iterator that hands samples to protocol decoders |
| `ValueChanges` | the value changes of the VCD output |
| `Datastore` | the chunked store, and the loop that saves it |
| `SamplerateString` | printing a sample rate and reading it back |
| `Bits`, `Bytes`, `Products`, `Streams`, `Options`, `Probes`, `SessionFeed` | words and C's operators on them, memory, products, concatenation, probes, packets on the session bus |

## What was found

The model follows the code. Where the code does not do what its comments, its documentation or its own
purpose say, there is a theorem that says exactly when it does.

- The fx2lafw trigger misses matches that straddle transfers. The driver's comment promises 0001 in 00001;
  it is lost if a transfer ends after the second sample (`CommentExampleIsMissed`). Whether a trigger can
  miss at all can be read off its masks and values (`ExactIffCannotMiss`); with one or two stages it never
  does.
- A stop requested while fx2lafw sends a data packet is forgotten, because the counter that was set to -1 is
  then increased. sigrok-cli makes such a stop when a decoder fails (sigrok-cli/sigrok-cli.c:576-578).
  `StopInsideDataIsLost` says when the driver is stopping afterwards; `StopIsForgotten` is a case.
- A start of fx2lafw does not reset the trigger. If the probes are not configured again, samples that an earlier
  acquisition left in the middle of a match are sent, exactly if they begin a complete match
  (`LeftoverIsSentIff`), and after a trigger has fired the next acquisition is not triggered
  (`OutputWithoutTrigger`).
- fx2lafw counts the samples before the match in the transfer that fires, though they are not sent. Which
  transfer ends a run can be told from the transfers alone (`LimitEndsRunIff`, `PlainRun`): it is the first one
  with which more than the limit has come in since the start of the transfer that fired. If nothing else goes
  wrong, fewer samples than the limit have been sent then if and only if some transfer ends later than the limit
  after that start, and earlier than the limit after the match (`FallsShortIff`). In `LimitFallsShort` a run with
  a limit of three sends one.
- If the first submission of a start is refused, END is never sent (`OwnedAfterStart`).
- The ASIX Sigma decoder does not reset the fill level of its buffer after a cluster. If the next cluster of
  the same chunk comes without a gap, nothing is padded, and the cluster before is sent again
  (`AdjacentClusterIsRepeated`). A recording is sent as it was made if and only if every cluster of a chunk
  but the first comes at least eight events after the one before; each that does not makes it longer by one
  cluster (`AllSentIsTimeline`).
- The Sigma download counts the place of a chunk in its portion twice when it looks for the trigger's chunk. So a
  trigger in an odd chunk is never sent (`OddIsNeverSent`), one in an even chunk is looked for in a chunk of the
  same portion and in one of the portion before (`SearchedIff`, `SearchedTwice`), and the right chunk alone is
  searched if and only if it is the first of the recording (`OnlyOwnChunkIff`).
- The end of a Sigma recording is found by comparing 16-bit time stamps with a number of words of memory. The
  clusters sent of the last chunk are those recorded if and only if none of these comes too late and the next
  one does (`KeepsRecordedIff`, `LastIsSentIff`; `PartIsKeptIff` puts it as two comparisons). If the recording
  stops at the end of a chunk, the number of words is 0, and that full chunk is sent only if all its stamps have
  wrapped around or the chunk before ended at 0 (`FullIsKeptIff`); of a recording of one full chunk nothing is
  sent unless it starts at stamp 0 or 1 (`OneFullChunkIsSentIff`). `RecordedIsCut` has a case of a full chunk and
  one of a wrapped limit.
- The Sigma hardware fires on any of the edges asked for, while the search for the exact sample wants all of
  them. They agree if and only if no more than one edge is asked for (`HardwareAgreesIff`), which is what the
  settings enforce.
- The LA8 driver leaves out the sample that fires the trigger if it is the last of a block
  (`CompleteBufferIff`, `LastOfBlockIsLost`).
- The datastore loses the rest of a put that is not a whole number of units. If that rest had taken a chunk of
  its own, the next put computes a negative offset and writes before the chunk (`Put`, `OffsetIsOutsideIff`).
  With units of three bytes a first put of 1048577 bytes does it (`LeftoverMayBeLost`); no put does if and
  only if the unit size divides 524288 (`AlwaysStaysIff`). In the same state, and in no other, the copies made
  when the session is saved do not fit into their buffer (`CopiesFitIff`).
- A further acquisition with the same Logic Sniffer starts from the sample count of the one before: if that had
  reached the limit, everything the device sends is ignored (`AcquireAgain`).
- The filter's fast path copies whenever as many probes are listed as a sample has; that is right if and only
  if the list is the identity (`CopyingIsRightIffIdentity`, `SwappedIsNotCopied`), as it is for the increasing lists that the
  frontend builds.
- The documentation of the sample rate printer gives "31.5 kHz" for 31500; the code prints "31.500 kHz", and
  "31.50 kHz" for 31050 (`ShownDecimalIsRateIff`, `ShownDecimalIsWrong`). The session loader reads a rate with a
  fraction as a whole number of units (`SessionKeepsRateIff`): 1500 Hz becomes 1 Hz (`SessionLosesFraction`).

## Model

| member | source | states |
|---|---|---|
| TriggerScan.FeedIsScan | libsigrok/hardware/fx2lafw/fx2lafw.c:789-845 | Matching transfer by transfer, with the partial match carried over, finds the same window as scanning the carried samples and the new ones as one piece |
| TriggerScan.FiresOnFirstInside | libsigrok/hardware/fx2lafw/fx2lafw.c:789-845 | For every stream and every way of cutting it: the window fired on is a complete match of all stages, and no complete match inside one transfer comes earlier or is overlooked |
| TriggerScan.FeedTriesAllInside | libsigrok/hardware/fx2lafw/fx2lafw.c:828-842 | Going back, clamped at the start of the buffer, skips no complete match that lies in the transfer |
| TriggerExact.CanMissIsDecidable | libsigrok/hardware/fx2lafw/fx2lafw.c:828-842 | Whether some cut can hide a match is a condition on the masks and values of the stages alone |
| TriggerExact.ExactIffCannotMiss | libsigrok/hardware/fx2lafw/fx2lafw.c:828-842 | The trigger fires on the first complete match of every stream, however cut, if and only if that condition does not hold |
| TriggerExact.ShortPatternsAreExact | libsigrok/hardware/fx2lafw/fx2lafw.c:828-842 | One or two stages: always the first complete match |
| TriggerExact.CommentExampleIsMissed | libsigrok/hardware/fx2lafw/fx2lafw.c:830-836 | The comment's example is lost when it is cut |
| Fx2lafwProbes.StageMeansLevels | libsigrok/hardware/fx2lafw/fx2lafw.c:331-357 | A sample meets a configured stage exactly if every enabled probe whose trigger is that long has the level that character asks for |
| Fx2lafwProbes.StageIsWellFormed | libsigrok/hardware/fx2lafw/fx2lafw.c:331-357 | Every configured stage can be met |
| Fx2lafwProbes.ByteHoldsAllIff | libsigrok/hardware/fx2lafw/fx2lafw.c:338-339 | Samples of one byte hold all enabled probes if and only if no probe above the eighth is used |
| Fx2lafw.Device.ConfigureProbes | libsigrok/hardware/fx2lafw/fx2lafw.c:319-365 | Masks, values, first stage and sample width are those of the probes; it fails exactly if a trigger is too long |
| Fx2lafw.Device.AbortAcquisition | libsigrok/hardware/fx2lafw/fx2lafw.c:670-680 | The loop cancels every transfer in a slot, and marks the driver as stopping |
| Fx2lafw.Device.FinishAcquisition | libsigrok/hardware/fx2lafw/fx2lafw.c:682-700 | END is sent, a stop from inside END is handled, and the slots go |
| Fx2lafw.Device.FreeTransfer | libsigrok/hardware/fx2lafw/fx2lafw.c:702-722 | The slot is emptied, the count goes down, and the last one finishes |
| Fx2lafw.Device.ResubmitTransfer | libsigrok/hardware/fx2lafw/fx2lafw.c:724-732 | A transfer that cannot be submitted again is freed |
| Fx2lafw.Device.MatchTrigger | libsigrok/hardware/fx2lafw/fx2lafw.c:789-845 | The loop that moves its own index back computes what scanning for the first viable window gives, including the matched samples it keeps |
| Fx2lafw.ScanAtIsScan | libsigrok/hardware/fx2lafw/fx2lafw.c:789-845 | The recursion that the loop follows is the search for the first viable window |
| Fx2lafw.StartAtIsFirst | libsigrok/hardware/fx2lafw/fx2lafw.c:828-842 | Backtracking ends at the first viable window of the carried and the new samples |
| Fx2lafw.Device.ReceiveTransfer | libsigrok/hardware/fx2lafw/fx2lafw.c:734-867 | A completion takes the step the state machine has for it: ignored, empty, trigger search, sent, limit reached, resubmitted or freed |
| Fx2lafw.Device.AcquisitionStart | libsigrok/hardware/fx2lafw/fx2lafw.c:912-991 | Transfers are submitted up to the first failure; what was submitted is cancelled if there is one |
| Fx2lafw.Device.AcquisitionStop | libsigrok/hardware/fx2lafw/fx2lafw.c:994-1007 | A stop is an abort |
| Fx2lafw.ConfiguredIsWellFormed | libsigrok/hardware/fx2lafw/fx2lafw.c:319-365 | What the settings give is a pattern the theorems on exactness apply to |
| Fx2lafwModel.StartedAfterSuccess | libsigrok/hardware/fx2lafw/fx2lafw.c:912-991 | A successful start of at least one transfer reaches the states from which the whole-run theorems begin, also with the trigger left in the middle of a match |
| Fx2lafw.Device.AlwaysReady | libsigrok/hardware/fx2lafw/fx2lafw.c:800-845 | The samples the driver holds always begin a match, so it can be started at any time |
| Fx2lafwOwnership.OwnedAfterStart | libsigrok/hardware/fx2lafw/fx2lafw.c:946-963 | A start, also one that fails half way, leaves the books in order if and only if it has submitted a transfer; if not, no transfer can complete and END has not been sent |
| Fx2lafwOwnership.FailedStartStops | libsigrok/hardware/fx2lafw/fx2lafw.c:912-991 | A start succeeds if and only if every submission and the hardware do; the transfers submitted are those before the first refusal, and a failure cancels them and makes the driver stop |
| Fx2lafwOwnership.FreeKeeps | libsigrok/hardware/fx2lafw/fx2lafw.c:702-722 | Freeing keeps the books; END comes with the last transfer, and a stop from inside it cancels nothing |
| Fx2lafwOwnership.RunKeeps | libsigrok/hardware/fx2lafw/fx2lafw.c:670-867 | Every completion, failed resubmission and stop keeps the ownership invariant |
| Fx2lafwOwnership.BooksBalance | libsigrok/hardware/fx2lafw/fx2lafw.c:702-787 | In every run the count of submitted transfers is the number of occupied slots, END is sent exactly when it is 0, once and last |
| Fx2lafwOwnership.NothingAfterEnd | libsigrok/hardware/fx2lafw/fx2lafw.c:682-700 | Nothing is sent after END |
| Fx2lafwOwnership.AbortDrains | libsigrok/hardware/fx2lafw/fx2lafw.c:742-748 | After an abort every completion frees its transfer and sends no data, so the transfers still out bound the completions to come |
| Fx2lafwOwnership.StopInsideDataIsLost | libsigrok/hardware/fx2lafw/fx2lafw.c:857-866 | After a stop from inside a data packet the driver is stopping if and only if the size of the transfer, counted from -1, exceeds the limit, or the transfer was the last one, is refused, and a listener stops again in END |
| Fx2lafwOwnership.StopIsForgotten | libsigrok/hardware/fx2lafw/fx2lafw.c:857-866 | A state and a completion for which the stop is lost |
| Fx2lafwOutput.OutputFromTrigger | libsigrok/hardware/fx2lafw/fx2lafw.c:764-863 | Whole run with a trigger: nothing, or one TRIGGER and then the samples from the first one of a complete match on, without a gap; the samples are what was left in the window and what completions bring, in time or not |
| Fx2lafwOutput.LeftoverIsSentIff | libsigrok/hardware/fx2lafw/fx2lafw.c:803-845 | Samples of an earlier acquisition are sent if and only if they are the start of a complete match: then the payload begins with all of them, and otherwise it is an end of the accepted samples |
| Fx2lafwOutput.OutputWithoutTrigger | libsigrok/hardware/fx2lafw/fx2lafw.c:847-863 | Whole run without a trigger: the samples of all completions that bring some, in time or not, and no TRIGGER |
| Fx2lafwOutput.LimitIsKept | libsigrok/hardware/fx2lafw/fx2lafw.c:857-863 | With a limit, no more than that, one transfer and the matched window are sent |
| Fx2lafwOutput.SentAgainstCounted | libsigrok/hardware/fx2lafw/fx2lafw.c:803-863 | As long as the driver is not stopping, the samples sent are those counted less those skipped before the match in the transfer that fired |
| Fx2lafwOutput.LimitEndsRunIff | libsigrok/hardware/fx2lafw/fx2lafw.c:857-863 | A completion ends the run at the limit if and only if, with its samples, the matcher has fired and more than the limit has come in since the start of the transfer that fired |
| Fx2lafwOutput.LimitEndsRun | libsigrok/hardware/fx2lafw/fx2lafw.c:857-863 | When the limit ends a run, the driver's counter is what has come in since the start of the transfer that fired, and what has been sent is everything from the match on; that is less than the limit if and only if the counter is above the limit by less than what was skipped |
| Fx2lafwOutput.PlainRun | libsigrok/hardware/fx2lafw/fx2lafw.c:734-867 | If every completion brings samples and nothing else goes wrong, the sequence of transfers decides whether the run has ended, which transfers were taken, and what was sent |
| Fx2lafwOutput.FallsShortIff | libsigrok/hardware/fx2lafw/fx2lafw.c:803-863 | Such a run, ended by the limit, has sent fewer samples than the limit if and only if some transfer ends later than the limit after the start of the transfer that fired, and earlier than the limit after the match |
| Fx2lafwOutput.TakenIsLeast | libsigrok/hardware/fx2lafw/fx2lafw.c:857-863 | The last transfer taken passes the limit, and those before it do not |
| Fx2lafwOutput.LimitFallsShort | libsigrok/hardware/fx2lafw/fx2lafw.c:857-863 | A run with a limit of 3 that ends after one sample |
| Fx2lafwOutput.CountedIsSent | libsigrok/hardware/fx2lafw/fx2lafw.c:847-863 | Without a trigger the counter is the number of samples sent |
| Fx2lafwEnding.StaysInFlightIff | libsigrok/hardware/fx2lafw/fx2lafw.c:724-867 | A transfer stays in flight if and only if the driver does not give up and can submit it again; the others stay where they are |
| Fx2lafwEnding.StopsIff | libsigrok/hardware/fx2lafw/fx2lafw.c:670-867 | A completion makes the driver stop if and only if the device is gone, has been silent too long, or the limit is passed, or a listener stops again in END |
| Fx2lafwEnding.StopAborts | libsigrok/hardware/fx2lafw/fx2lafw.c:670-680 | A stop cancels every transfer in flight, and changes nothing else |
| Fx2lafwEnding.RunCountsEmpties | libsigrok/hardware/fx2lafw/fx2lafw.c:772-787 | As long as the driver is not stopping, it counts the completions without samples since the last one with some |
| Fx2lafwEnding.GivenUpAfter65 | libsigrok/hardware/fx2lafw/fx2lafw.c:772-787 | A silent device is given up with the 65th completion in a row that brings nothing, and not before |
| OlsStream.ExpansionOfSent | libsigrok/hardware/openbench-logic-sniffer/ols.c:752-805 | Sending the enabled groups of samples, with counts, and decoding the bytes gives the samples back; the last count before a sample counts |
| OlsStream.PlainWordsAreSamples | libsigrok/hardware/openbench-logic-sniffer/ols.c:758-776 | Without run-length encoding every word is a sample, also if its top bit is set |
| OlsStream.ChopFlattened | libsigrok/hardware/openbench-logic-sniffer/ols.c:752-754 | Words sent one after another are received as those words |
| OlsStream.CountIsRead | libsigrok/hardware/openbench-logic-sniffer/ols.c:758-774 | A count is read back from its word, top bit removed |
| OlsStream.SpreadRestoresGroups | libsigrok/hardware/openbench-logic-sniffer/ols.c:782-805 | Expanding the bytes of the enabled channel groups restores the sample |
| Ols.CountChannels | libsigrok/hardware/openbench-logic-sniffer/ols.c:738-742 | The loop counts the groups that the flag register leaves enabled |
| Ols.ProgressIsDecoding | libsigrok/hardware/openbench-logic-sniffer/ols.c:744-820 | Decoding byte by byte is decoding the words the bytes form |
| Ols.Device.ReceiveByte | libsigrok/hardware/openbench-logic-sniffer/ols.c:744-820 | After any bytes the buffer holds, from its end, the samples decoded so far up to the limit, and filled cells are never written again |
| Ols.Device.TakeFullWord | libsigrok/hardware/openbench-logic-sniffer/ols.c:754-820 | A word is a count, or a sample stored count + 1 times, cut off at the limit |
| Ols.Device.ExpandGroups | libsigrok/hardware/openbench-logic-sniffer/ols.c:782-805 | The loop moves the received bytes to the enabled groups and leaves 0 in the others |
| Ols.Device.Finish | libsigrok/hardware/openbench-logic-sniffer/ols.c:822-870 | What is sent is the first samples up to the limit, reversed, split where the trigger is, and then END |
| Ols.FirstIs | libsigrok/hardware/openbench-logic-sniffer/ols.c:775-780 | What is kept up to the limit is a beginning of the samples, and all of them if there is room |
| Ols.SplitLosesNothing | libsigrok/hardware/openbench-logic-sniffer/ols.c:827-865 | The packets before and after the trigger hold all samples once and in order |
| Ols.TriggerIsPlaced | libsigrok/hardware/openbench-logic-sniffer/ols.c:827-852 | TRIGGER is sent exactly if there was one, after exactly the samples before it; END is last |
| Ols.Acquire | libsigrok/hardware/openbench-logic-sniffer/ols.c:695-873 | Whole acquisition: the samples the device saw on the enabled groups reach the bus in reverse order, no more than the limit |
| Ols.AcquireAgain | libsigrok/hardware/openbench-logic-sniffer/ols.c:744-750 | After an acquisition that has reached its limit, a further one ignores all bytes |
| Ols.Clock.SetSamplerate | libsigrok/hardware/openbench-logic-sniffer/ols.c:610-640 | Unsupported rates change nothing; others give demux above the clock rate, and the achieved rate |
| Ols.ChosenIsNextAbove | libsigrok/hardware/openbench-logic-sniffer/ols.c:621-634 | The achieved rate is not below the wish, no divider gives one in between, and setting it again changes nothing |
| FloorDivision.AchievedIsNextAbove | libsigrok/hardware/openbench-logic-sniffer/ols.c:626-632 | Dividing twice gives the smallest achievable rate that is not below the wish |
| FloorDivision.AchievedIsStable | libsigrok/hardware/openbench-logic-sniffer/ols.c:626-632 | Dividing three times is dividing once, so asking for the achieved rate keeps the divider |
| La8Mangling.PlaceOfIndex | libsigrok/hardware/chronovu-la8/driver.c:440-450 | Every byte goes to a place in the buffer that tells where it came from |
| La8Mangling.IndexOfPlace | libsigrok/hardware/chronovu-la8/driver.c:440-450 | Every place is reached: the explicit inverse of the index |
| La8Mangling.IndexIsInjective | libsigrok/hardware/chronovu-la8/driver.c:440-450 | No place is written twice, for either polarity |
| La8Mangling.DemanglingIsPermuting | libsigrok/hardware/chronovu-la8/driver.c:440-450 | Buffer and wire determine each other |
| La8Mangling.DemangledInPairs | libsigrok/hardware/chronovu-la8/driver.c:440-450 | The buffer is what was sent as eight parts of pairs: part m has samples 2m and 2m+1 of every sixteen, exchanged unless the divider count is 0 |
| La8.Device.Demangle | libsigrok/hardware/chronovu-la8/driver.c:440-450 | The loop writes the block's bytes to their places and no others |
| La8.Device.ReadBlock | libsigrok/hardware/chronovu-la8/driver.c:412-453 | A whole block is stored, the first one after retries; anything else is an error and changes nothing |
| La8.OutcomeIs | libsigrok/hardware/chronovu-la8/driver.c:418-428 | Only for the first block are reads of nothing repeated, until one gives something or the time is out |
| La8.Device.ReceiveData | libsigrok/hardware/chronovu-la8/api.c:385-433 | Earlier blocks stay where they are; after the last one everything is sent, then END; an error ends the acquisition |
| La8.Device.SendBlock | libsigrok/hardware/chronovu-la8/driver.c:455-546 | The block is split at the first match, if the trigger has not been found before |
| La8.Acquire | libsigrok/hardware/chronovu-la8/api.c:385-433 | Whole acquisition: the buffer is the wire put in order; TRIGGER is sent if and only if some sample has the levels of the pattern on the masked probes, before the first that has; everything is sent exactly if that one does not end a block |
| La8.CompleteBufferIff | libsigrok/hardware/chronovu-la8/driver.c:530-545 | All of the buffer is sent if and only if the first match, if any, is not on the last byte of a block |
| La8.LastOfBlockIsLost | libsigrok/hardware/chronovu-la8/driver.c:530-545 | A buffer that is not sent completely |
| La8Emission.MaskedFires | libsigrok/hardware/chronovu-la8/driver.c:466-488 | A sample fires if and only if there is a mask and it has the pattern's levels on all probes of the mask |
| La8Emission.FirstMatchIsFirstToFire | libsigrok/hardware/chronovu-la8/driver.c:466-488 | The search finds the first sample that fires |
| La8Emission.NothingFound | libsigrok/hardware/chronovu-la8/driver.c:490-502 | Without a match, or after one, blocks are sent unchanged and without TRIGGER |
| La8Emission.TriggerIsPlaced | libsigrok/hardware/chronovu-la8/driver.c:504-545 | One TRIGGER over all blocks, right before the first match; at most the matching sample is left out |
| La8Emission.CompleteIff | libsigrok/hardware/chronovu-la8/driver.c:530-545 | The payloads are all the samples if and only if the first match does not end a block |
| La8Rates.DividerOfRate | libsigrok/hardware/chronovu-la8/driver.c:99-126 | Dividing the clock by a table rate gives the divider back |
| La8Rates.Rates.SamplerateToDivcount | libsigrok/hardware/chronovu-la8/driver.c:110-124 | Every count comes from its rate and from no other; 0xff exactly for unsupported rates |
| La8Rates.Rates.FillIfNeeded | libsigrok/hardware/chronovu-la8/driver.c:63-75 | The table holds the 255 rates, ascending |
| La8Rates.RatesDescend | libsigrok/hardware/chronovu-la8/driver.c:63-75 | No rate occurs twice |
| Hantek.InOrderIsRotated | libsigrok/hardware/hantek-dso/api.c:626-632 | A frame in order is the frame rotated by the trigger offset |
| Hantek.TransfersAreRead | libsigrok/hardware/hantek-dso/api.c:586-598 | Samples that the device sends as pairs of bytes, channel 2 first, cut into transfers of whole samples, are read as those samples |
| Hantek.CodedBits | libsigrok/hardware/hantek-dso/dso.c:667 | The offset is read from the high, low and middle byte of the answer |
| Hantek.FrameIsBracketed | libsigrok/hardware/hantek-dso/api.c:672-680 | A frame is sent between FRAME_BEGIN and FRAME_END, with samples only in between |
| Hantek.Device.TakeSamples | libsigrok/hardware/hantek-dso/api.c:633-665 | Samples before the trigger point are kept, the others sent, for any transfer |
| Hantek.Device.ReceiveTransfer | libsigrok/hardware/hantek-dso/api.c:607-693 | Empty transfers change nothing; others go on with the frame, and the last one ends it with FRAME_END, and END or a new capture |
| Hantek.Device.FetchFrame | libsigrok/hardware/hantek-dso/api.c:617-691 | However a frame is cut into transfers, it is sent in order |
| Hantek.Acquire | libsigrok/hardware/hantek-dso/api.c:607-782 | Whole acquisition: the captures reach the bus as one frame each, and the samples on it are those of every capture from its decoded trigger offset on, however each is cut into transfers |
| Hantek.PayloadOfFrames | libsigrok/hardware/hantek-dso/api.c:672-680 | The samples on the bus are those of all frames, each in order |
| Hantek.Device.HandleEvent | libsigrok/hardware/hantek-dso/api.c:695-782 | The capture states: a frame begins only when the device has one ready and none is being fetched; the third empty answer asks again |
| Hantek.Device.GetCaptureState | libsigrok/hardware/hantek-dso/dso.c:643-684 | The offset is the one whose Gray code the device sent |
| GrayCode.ConvertTriggerOffset | libsigrok/hardware/hantek-dso/dso.c:669-680 | The loop yields the number whose Gray code was given, for every width |
| GrayCode.BitOfRounds | libsigrok/hardware/hantek-dso/dso.c:673-679 | Each round tests a bit no earlier round has touched: bit j is inverted once for each set bit above it |
| GrayCode.DecodesEncoded | libsigrok/hardware/hantek-dso/dso.c:669-680 | Decoding undoes encoding |
| GrayCode.EncodesDecoded | libsigrok/hardware/hantek-dso/dso.c:669-680 | Encoding undoes decoding, and the width is kept |
| GrayCode.DecodingIsInjective | libsigrok/hardware/hantek-dso/dso.c:669-680 | Distinct device numbers give distinct offsets |
| SigmaLut.BuildLutEntry | libsigrok/hardware/asix-sigma/asix-sigma.c:1106-1128 | Entry j of a quad is set exactly if j agrees with the value on the masked probes of the quad |
| SigmaLut.LookupCompares | libsigrok/hardware/asix-sigma/asix-sigma.c:1106-1128 | All four quads say yes if and only if the sample equals the value under the mask |
| SigmaTrigger.DetectCondition | libsigrok/hardware/asix-sigma/asix-sigma.c:1137-1173 | The array is what the operation means for the levels before and now |
| SigmaTrigger.AddTriggerFunction | libsigrok/hardware/asix-sigma/asix-sigma.c:1131-1209 | After any calls the mask is the truth table of their nested expression |
| SigmaTrigger.BuildBasicTrigger | libsigrok/hardware/asix-sigma/asix-sigma.c:1216-1259 | With the tables, the hardware fires if and only if the levels match and one of the edges asked for occurs, if any |
| SigmaTrigger.SomeEdgeIsAtPin | libsigrok/hardware/asix-sigma/asix-sigma.c:1230-1250 | The pins found by the loop are all there are |
| SigmaPinpoint.ConfigureProbes | libsigrok/hardware/asix-sigma/asix-sigma.c:636-708 | The masks have the pins whose enabled probes' triggers begin with r, f, 0 or 1, and triggers are used if there is an edge; refused exactly if two edges, or anything else than an edge at high rates, is asked for |
| SigmaPinpoint.GetTriggerOffset | libsigrok/hardware/asix-sigma/asix-sigma.c:844-873 | The loop finds the first of eight samples that the search stops at, or 0 |
| SigmaPinpoint.SearchIsFirst | libsigrok/hardware/asix-sigma/asix-sigma.c:844-873 | The search stops at no earlier sample, and gives 0 only if at none or the first |
| SigmaPinpoint.SearchStops | libsigrok/hardware/asix-sigma/asix-sigma.c:853-866 | It stops where the levels match and every edge asked for occurs |
| SigmaPinpoint.HardwareAgreesIff | libsigrok/hardware/asix-sigma/asix-sigma.c:691-700 | Hardware and search look for the same edges if and only if at most one is asked for |
| SigmaPinpoint.SearchFindsWhatFired | libsigrok/hardware/asix-sigma/asix-sigma.c:969-976 | With settings from the probes the search stops at a sample if and only if the hardware fires on it |
| SigmaPinpoint.FewPins | libsigrok/hardware/asix-sigma/asix-sigma.c:1230-1235 | Settings from the probes never overrun the two pins of the tables |
| SigmaUnpack.BitOfSample | libsigrok/hardware/asix-sigma/asix-sigma.c:950-964 | Bit l of a sample is the event's bit for that probe and that sample |
| SigmaStream.SentIsTimeline | libsigrok/hardware/asix-sigma/asix-sigma.c:912-1009 | A chunk is sent as recorded if its clusters are spread; otherwise it is longer by exactly one cluster for each that comes early |
| SigmaStream.AllSentIsTimeline | libsigrok/hardware/asix-sigma/asix-sigma.c:912-1009 | A whole recording, however cut into chunks, is sent as recorded if and only if the clusters of each chunk are spread, and otherwise longer by one cluster for each that comes early |
| SigmaStream.AdjacentClusterIsRepeated | libsigrok/hardware/asix-sigma/asix-sigma.c:922-945 | Two clusters without a gap: the first one is sent twice |
| SigmaStream.TimelineOfJoin | libsigrok/hardware/asix-sigma/asix-sigma.c:912-917 | A recording can be decoded in parts, from the last time stamp and sample |
| SigmaStream.LengthOfTimeline | libsigrok/hardware/asix-sigma/asix-sigma.c:922-929 | It is as long as its time differences, each counted at least as seven events |
| SigmaStream.ElapsedIsTime | libsigrok/hardware/asix-sigma/asix-sigma.c:914-915 | The time counted from stamps of 16 bits is the time that has passed, over any number of turns, if no gap is a whole turn |
| SigmaStream.LastClusterIsInTime | libsigrok/hardware/asix-sigma/asix-sigma.c:912-1009 | Where clusters do not overlap, a recording ends with its last cluster, at the time elapsed since the first, over any wrapping of the stamps |
| SigmaStream.EveryClusterIsInTime | libsigrok/hardware/asix-sigma/asix-sigma.c:912-1009 | Where clusters do not overlap, the samples of each cluster stand in the recording at the time elapsed since the first one |
| SigmaStream.BetweenIsHeld | libsigrok/hardware/asix-sigma/asix-sigma.c:922-929 | Between two clusters the recording holds the last sample of the first one |
| SigmaStream.EveryClusterIsSentInTime | libsigrok/hardware/asix-sigma/asix-sigma.c:912-1009 | The same for what is sent of all chunks, if they are spread |
| SigmaTimeline.Decoder.UnpackCluster | libsigrok/hardware/asix-sigma/asix-sigma.c:950-964 | The loops unpack the samples of seven events, in order |
| SigmaTimeline.Decoder.SendInParts | libsigrok/hardware/asix-sigma/asix-sigma.c:931-944 | Packets of 2048 samples lose and repeat nothing |
| SigmaTimeline.Decoder.SendCluster | libsigrok/hardware/asix-sigma/asix-sigma.c:966-1006 | A cluster is split at the trigger without loss |
| SigmaTimeline.Decoder.DecodeChunk | libsigrok/hardware/asix-sigma/asix-sigma.c:883-1012 | A chunk is sent up to the cluster that is cut off, with the trigger at the sample the search finds in its cluster, and the position goes on from there |
| SigmaTimeline.Decoding.SaysSamples | libsigrok/hardware/asix-sigma/asix-sigma.c:966-1006 | What the bus says is the samples, with at most one trigger among them |
| SigmaTimeline.Decoding.MarkedSample | libsigrok/hardware/asix-sigma/asix-sigma.c:969-989 | The trigger comes right before the sample that the search has found in its cluster |
| SigmaTimeline.Decoding.SearchInCluster | libsigrok/hardware/asix-sigma/asix-sigma.c:844-873 | In the trigger's cluster the search compares each sample with the one it comes after, the first with the last one of the cluster before, and finds the first that stops it |
| SigmaTimeline.ReportIs | libsigrok/hardware/asix-sigma/asix-sigma.c:931-1006 | The samples and triggers reported are the payload of the packets and the number of TRIGGER packets |
| SigmaTimeline.BeforeFirstTrigger | libsigrok/hardware/asix-sigma/asix-sigma.c:966-1006 | What is reported before the trigger is the payload of the packets before the first TRIGGER |
| SigmaTimeline.TriggerClusterIs | libsigrok/hardware/asix-sigma/asix-sigma.c:900-910 | The trigger's cluster is the one that has the position, moved back by six events up to 50 MHz, but not before the start |
| SigmaTimeline.Decoder.constructor | libsigrok/hardware/asix-sigma/asix-sigma.c:607-622 | With the rate go the number of probes and the samples of an event, 16 together |
| SigmaTimeline.Decoding.SentIsSent | libsigrok/hardware/asix-sigma/asix-sigma.c:912-1009 | Decoding cluster by cluster sends what the clusters are sent as together |
| SigmaTimeline.CountIs | libsigrok/hardware/asix-sigma/asix-sigma.c:912-920 | The clusters before the first one cut off are those decoded |
| SigmaDownload.Download | libsigrok/hardware/asix-sigma/asix-sigma.c:1057-1099 | Portion by portion, every chunk is decoded from where the one before ended, the last one up to its limit; the samples of the valid clusters are sent, with a trigger in the chunks that are searched where the search puts it, and then END |
| SigmaDownload.DownloadIsTimeline | libsigrok/hardware/asix-sigma/asix-sigma.c:1057-1099 | The samples of a download are the recording at the times of its stamps if and only if the valid clusters of every chunk are spread |
| SigmaMemory.RecordIsRead | libsigrok/hardware/asix-sigma/asix-sigma.c:912-964 | From 1024 bytes that hold 64 records of a stamp and seven words, low bytes first, the decoder reads these stamps and words in order |
| SigmaMemory.ProbeIsBit | libsigrok/hardware/asix-sigma/asix-sigma.c:947-964 | Probe l of sample k of event j of cluster i is bit l * s + k of the word the device has recorded for that event |
| SigmaMemory.DownloadIsRecording | libsigrok/hardware/asix-sigma/asix-sigma.c:1057-1099 | A download of what the device has recorded sends the recording made by its records, at the times of their stamps, if and only if the clusters kept are spread |
| SigmaDownload.CutIff | libsigrok/hardware/asix-sigma/asix-sigma.c:1078-1084 | The 16-bit comparison with the limit, in terms of the time since the chunk before and the words recorded |
| SigmaDownload.KeepsRecordedIff | libsigrok/hardware/asix-sigma/asix-sigma.c:1078-1084 | The clusters kept of a last chunk are those recorded, eight words each, if and only if none of these comes too late and the first one not recorded does |
| SigmaDownload.PartIsKeptIff | libsigrok/hardware/asix-sigma/asix-sigma.c:1078-1084 | For a part of a chunk in the order of time: if and only if the last recorded cluster comes within as many units as words were recorded, and the next one later, without a wrap |
| SigmaDownload.FullIsKeptIff | libsigrok/hardware/asix-sigma/asix-sigma.c:1032-1084 | A full last chunk is kept if and only if the chunk before ended at 0 or all its stamps have wrapped around; if the first has not, nothing of it is |
| SigmaDownload.RecordedIsCut | libsigrok/hardware/asix-sigma/asix-sigma.c:1078-1084 | A full chunk, and a part of one, of which everything is cut off |
| SigmaDownload.LastIsSentIff | libsigrok/hardware/asix-sigma/asix-sigma.c:1057-1099 | When the last chunk of a download is sent as far as it was recorded; those before it always are |
| SigmaDownload.OneFullChunkIsSentIff | libsigrok/hardware/asix-sigma/asix-sigma.c:1032-1099 | A download of one full chunk sends all of it if its first stamp is 0 or 1, and nothing otherwise |
| SigmaDownload.RecordingStarts | libsigrok/hardware/asix-sigma/asix-sigma.c:1070-1074 | Decoding starts one unit of time before the first stamp |
| SigmaDownload.MarkedAreSearched | libsigrok/hardware/asix-sigma/asix-sigma.c:1086-1096 | The chunks with a trigger are those that are searched, if triggers are used and the position is in a valid cluster |
| SigmaDownload.FirstTrigger | libsigrok/hardware/asix-sigma/asix-sigma.c:1086-1096 | The first trigger comes after the samples of all chunks before and those of its own chunk up to its mark |
| SigmaDownload.SearchedIff | libsigrok/hardware/asix-sigma/asix-sigma.c:1080-1098 | Which chunks are searched: none for an odd trigger chunk, one in its portion and one in the portion before for an even one |
| SigmaDownload.OwnChunkIff | libsigrok/hardware/asix-sigma/asix-sigma.c:1080-1098 | The trigger's own chunk is searched if and only if it is the first of its portion |
| SigmaDownload.OnlyOwnChunkIff | libsigrok/hardware/asix-sigma/asix-sigma.c:1080-1098 | Its own chunk and no other is searched if and only if it is the first of the recording |
| SigmaDownload.OddIsNeverSent | libsigrok/hardware/asix-sigma/asix-sigma.c:1080-1098 | A trigger in an odd chunk is not sent at all |
| ProbeFilter.FilterProbes | libsigrok/filter.c:76-146 | The output is the input projected to the listed probes, sample by sample, on both paths, if a list of all probes is the identity; the fast path copies, the other one gives as many units as there are samples; too many probes is an error |
| ProbeFilter.FastPathRefinesSlowPath | libsigrok/filter.c:105-142 | For increasing lists the copy is what the bit-packing loop would give |
| ProbeFilter.AllProbesInOrder | sigrok-cli/sigrok-cli.c:506-512 | An increasing list of as many probes as there are bits is the identity |
| ProbeFilter.CopyingIsRightIffIdentity | libsigrok/filter.c:105-112 | Copying is right for all data if and only if the list is the identity |
| ProbeFilter.SwappedIsNotCopied | libsigrok/filter.c:105-112 | A list of all probes, and a sample, for which the copy is wrong |
| ProbeFilter.ProjectionIsUnique | libsigrok/filter.c:126-140 | The projection determines every output byte |
| ProbeFilter.BitOfPackedWord | libsigrok/filter.c:128-135 | Output bit b is the input bit of probe b of the list, all others are 0 |
| LogicIterator.Logic.IterNext | libsigrokdecode/type_logic.c:30-80 | Each call gives the next sample number, and per decoder probe the level of its bit, or 42 if it is not mapped |
| LogicIterator.Logic.TakeAll | libsigrokdecode/type_logic.c:39-80 | Iterating gives every sample of the buffer once, numbered consecutively |
| LogicIterator.FilterThenIterate | libsigrokdecode/type_logic.c:39-80 | Iterating over projected samples, a mapped decoder probe shows the level the original probe had |
| LogicIterator.FilterAndIterate | sigrok-cli/sigrok-cli.c:551-577 | Samples filtered by either path and handed to a decoder show, one after another, the levels that the bits of the original bytes have, or 42 |
| ValueChanges.Output.Data | libsigrok/output/vcd.c:160-215 | One packet yields the changes of its samples against the one before, in order; those of a new file tell a reader that knows nothing the level of every enabled probe |
| ValueChanges.DataOfAll | libsigrok/output/vcd.c:160-215 | Called for one packet after another, the writer gives the changes of all their samples as one run: for a new file one for every level of the first sample and for every difference, no others, in order, from which every level can be read back; a file that is continued goes on from the sample before |
| ValueChanges.PacketsDoNotMatter | libsigrok/output/vcd.c:182-208 | However the same bytes are cut between samples, the writer sees the same samples, and so writes the same changes |
| ValueChanges.ReplayRestores | libsigrok/output/vcd.c:182-208 | Replaying the changes restores the level of every enabled probe at every sample |
| ValueChanges.ChangesAreDeltas | libsigrok/output/vcd.c:182-208 | A change is written if and only if it is the first sample or the level differs |
| Datastore.Datastore.Put | libsigrok/datastore.c:130-208 | The whole units of the data are appended to the byte string, and afterwards they reach into the last chunk if and only if a test on lengths says so |
| Datastore.OffsetIsOutsideIff | libsigrok/datastore.c:174-179 | The offset a put starts from is negative if and only if the stored units end before the last chunk; otherwise it and the free bytes make up the chunk |
| Datastore.LeftoverMayBeLost | libsigrok/datastore.c:164-205 | A put after which the next offset is negative, and the copies for a saved session are one byte more than their buffer |
| Datastore.AlwaysStaysIff | libsigrok/datastore.c:164-205 | No length of a first put does that if and only if the unit size divides the chunk size |
| Datastore.WholeUnitsIs | libsigrok/datastore.c:205 | What is counted of a put is the most whole units that it holds |
| Datastore.DividingUnitsStay | libsigrok/datastore.c:164-205 | With such a unit size no put ever does |
| Datastore.Datastore.StoreAll | libsigrok/datastore.c:176-199 | The loop fills the last chunk and goes on with new ones, also when a unit straddles chunks |
| Datastore.PutAll | libsigrok/datastore.c:130-208 | Puts of whole units concatenate, in no more chunks than needed |
| Datastore.TightCount | libsigrok/datastore.c:164-205 | The number of chunks is the least that holds the bytes |
| Datastore.MultiplesStay | libsigrok/datastore.c:130-208 | Whole units never leave a rest |
| Datastore.CopiesFitIff | libsigrok/session_file.c:247-263 | The copies of whole chunks fit into the buffer if and only if the stored units reach into the last chunk |
| Datastore.SaveBuffer | libsigrok/session_file.c:247-263 | The saved file is exactly the byte string, and the buffer with one chunk to spare is large enough |
| SamplerateString.ParseSizestring | libsigrok/strutil.c:263-303 | The loop accepts digits, spaces and a unit with k, m or g and hz, and multiplies accordingly |
| SamplerateString.ParseWithUnit | libsigrok/strutil.c:263-303 | A number, any spaces, k, m or g in either case, and nothing or hz in any case: the number times a thousand, a million or a thousand million |
| SamplerateString.SuffixIs | libsigrok/strutil.c:271-295 | Of what follows the number only spaces and one such letter are taken |
| SamplerateString.ReadSigned | libsigrok/strutil.c:268 | White space and a sign are taken, too large numbers saturate, and negative ones wrap around |
| SamplerateString.ParsePrinted | libsigrok/strutil.c:39-77 | Reading a printed rate succeeds if and only if it has no fraction, and gives the rate |
| SamplerateString.SessionKeepsRateIff | libsigrok/session_file.c:229-233 | Saving and loading keeps a rate if and only if it is printed without a fraction |
| SamplerateString.SessionLosesFraction | libsigrok/session_file.c:229-233 | 1500 Hz is saved and loaded as 1 Hz |
| SamplerateString.PrintingIsInjective | libsigrok/strutil.c:39-77 | Distinct rates print differently |
| SamplerateString.UnitIsFitting | libsigrok/strutil.c:39-77 | The unit is the one that leaves at most three digits before it, if there is one |
| SamplerateString.ShownDecimalIsRateIff | libsigrok/strutil.c:44-61 | A printed fraction, read as a decimal, is the rate if and only if it needs no leading zero |
| SamplerateString.ShownDecimalIsWrong | libsigrok/strutil.c:44-61 | 31050 Hz is shown as 31.50 kHz |
| Bits.AgreeUnderMask | libsigrok/hardware/fx2lafw/fx2lafw.c:797-798 | Masked comparison is agreement of the bits in the mask |
| Bytes.BitOfWord | libsigrok/filter.c:131 | A word copied from memory has the bits of its bytes, the first byte lowest |

## Left out

- Everything that talks to the operating system: libusb, libftdi, serial ports, zip files, timers and the Python objects. Inputs are arbitrary, with a flag where the code depends on success.
- Memory: allocation succeeds, and only the ownership of fx2lafw transfers is tracked.
- Integer widths beyond those stated: counters and lengths do not overflow; shifts of a C int are made by at most 30, so decoder probes are mapped to bits up to 30, and a list that is not copied has at most 31 probes with numbers up to 31.
- Fx2lafw.Device.ConfigureProbes: a trigger string with more characters than there are stages writes past the last stage before it is refused; the model refuses it without that write.
- Fx2lafw.Device.ReceiveTransfer: a transfer is a sequence of samples of the configured width, and transfers are numbers instead of pointers.
- Fx2lafwOutput.LimitIsKept: holds for runs in which no listener stops the session from inside a data packet; for the rest, see StopInsideDataIsLost.
- Fx2lafwOutput.SentAgainstCounted: the same restriction, as for the other theorems on the counter.
- Fx2lafwOutput.CountedIsSent: the same restriction.
- ProbeFilter.FilterProbes: the buffer holds at least one whole sample, because the loop bound is computed without a sign.
- LogicIterator.FilterAndIterate: the same.
- ValueChanges.Output.Data: the packet holds at least one whole sample, for the same reason.
- ValueChanges.DataOfAll: the same.
- LogicIterator.Logic.IterNext: a decoder probe mapped beyond bit 30 reads other bits, or none; it is not covered.
- ValueChanges: the header, time stamps in real units and identifiers; a change names its probe and the number of its sample.
- Ols.Device.Finish: a trigger position outside the samples received makes the driver send memory outside its buffer; the position is -1 or within them here.
- Ols.Clock.SetSamplerate: a device whose metadata allows more than twice the clock rate, or a rate of 0 with such metadata, is not covered.
- Ols.Acquire: the first acquisition with a device. A further one does not allocate its buffer again and is not ended by a timeout; AcquireAgain says what becomes of its bytes if the one before was complete, and nothing is said of one that was not.
- Ols: command packing, read and delay counts, the capture ratio, and metadata.
- La8: rates set by the user, probe settings, USB resets, and the acquisition start beyond its state.
- Hantek.Device.ReceiveTransfer: the device sends no more than the frame it was asked for; a stop while a frame is being fetched, after which transfers still come in, is not covered.
- Hantek.Device.HandleEvent: not called after a stop, which leaves the state IDLE; it would do nothing then.
- Hantek.Device.FetchFrame: nothing but empty transfers after the end of the frame, for the same reason.
- Hantek.Acquire: every request succeeds and every capture is ready when asked for; HandleEvent covers the other answers one by one.
- Hantek: scaling to volts and leaving out a disabled channel; an analog packet carries both channels as bytes.
- SigmaTrigger.AddTriggerFunction: the flag for negated operations, which no caller uses.
- SigmaTrigger.BuildBasicTrigger: what the hardware does with the constants m4 and selres; the tables are taken to select, compare and detect as their construction says.
- SigmaDownload.Download: the driver reads the stop and trigger positions anew before each portion; they are taken not to change after the capture has ended.
- SigmaTimeline.Decoder.DecodeChunk: with one sample per event the search reads an eighth sample that was not written for this cluster; it is arbitrary here.
- Datastore.Datastore.Put: a put to a store whose stored units end before its last chunk writes outside its memory, and is not followed further than the offset it computes.
- Datastore.SaveBuffer: nor is saving such a store.
- Datastore: the store is a sequence of chunks rather than a linked list.
- Protocol decoders, other output formats and input formats, other drivers, and the user interfaces: they have either no state worth a theorem or no specification the code settles.
