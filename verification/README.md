# Verified models of the osmo-fl2k signal path

osmo-fl2k turns a USB-to-VGA adapter into a transmitter. This project models the parts of it in which a small
mistake in an index, a cursor or an interleaving would go unnoticed in casual use, and proves what those parts
are for:

- the pool of USB transfers that the sample worker fills and the completion callbacks recycle (`XferPool`), the
  byte layout of a transfer (`Scatter`) and the search for a PLL setting (`Pll`);
- the RDS modulator: checkword and burst detection over polynomials (`RdsCode`), groups, clock time and the group
  schedule (`RdsGroups`), the stateful encoder (`RdsEncoder`), the overlap-add sample generator (`RdsModulator`), and
  what a receiver finds in the bits (`RdsReception`);
- the FM generator: phase accumulator (`Dds`), double-buffered writer (`FmWorker`), frequency ring (`FmModulator`) and
  its two threads (`FmLink`);
- the transmit ring of the SoapySDR driver (`SoapyRing`) and what its writeStream answers (`SoapyReports`);
- GNU getopt, which permutes argv in place across calls (`Getopt`), against a left-to-right scan (`GetoptSpec`), with
  laws about that scan (`GetoptLaws`) and what it reports for each kind of option (`GetoptReports`).

Code that changes state is written as classes and methods over arrays and fields, each proved against a function or
relation on values; what the program promises is proved about those functions. Buffer lengths, pool sizes, argv,
run lengths and the partition of a run into calls are arbitrary throughout. Threads are modelled as state machines
(`XferPool`) or as event lists between the accesses to shared state (`SoapyRing`, `FmLink`).

## What the proofs turned up

- Starting getopt over on the vector that a complete run left behind repeats the run exactly when the run did not end
  missing a required argument after passing over a non-option (`GetoptLaws.RescanRepeats`).
- Only the first call drops the `-` or `+` in front of the option string. Afterwards that character is an option, with
  the kind its place gives it even if it is listed again, and a `:` behind it no longer selects the code for missing
  arguments (`GetoptLaws.MarkerBecomesOption`, `GetoptLaws.MarkerAccepted`).
- A character pair whose second character is 0x80 or above loses its first one, because `char` is sign-extended
  (`RdsGroups.PairRoundTrip`).
- Builds without `tm_gmtoff` put half hours since the epoch into the clock-time group; from sixteen hours
  after the epoch on no receiver can read that back (`RdsGroups.EpochOffsetUnreadable`).
- The day formula follows the every-fourth-year leap rule (`RdsGroups.MjdOnGregorianCalendar`).
- Activating a Soapy stream while a buffer is partly written leaves the ring one buffer out of step for ever, unless it
  has one buffer; the driver is then handed a buffer other than the one completed (`SoapyRing.Ring.Activate`,
  `SoapyRing.AstrayForEver`, `SoapyRing.AstrayMissesTheBuffer`).
- Once the reader of the frequency ring has read the newest slot, the modulator is told that there is no room and writes
  nothing until a read overtakes it (`FmLink.CaughtUp`).
- The newest slot of the frequency ring still has the slope of a whole ring ago; a reader that catches up with the
  modulator plays it (`FmLink.ReaderSees`).
- A 16-bit sample survives the Soapy conversion only up to about 1/32 of full scale (`SoapyRing.ShortFitsByte`).

Where comments and code disagree, the model follows the code: the fifth state of the group pattern is 4, not the 5 of
the comment (src/rds_mod.c:157); releasing a Soapy buffer lowers the number of free ones, where the comment speaks of
raising the number of filled ones (src/SoapySDR/Streaming.cpp:617-618); both 16-bit formats are read as signed words
(src/SoapySDR/Streaming.cpp:421-429).

## Model

| member | source | states |
|---|---|---|
| GetoptSpec.IndexOfIs | src/getopt/getopt.c:220-232 | the search for a character finds its first occurrence |
| Getopt.Scanner.SwapBlocks | src/getopt/getopt.c:345-354 | the element loop makes two disjoint blocks of equal length trade places and leaves the rest alone |
| Getopt.Scanner.SwapShorter | src/getopt/getopt.c:338-373 | one round puts the shorter block in its final place: rotating the smaller pair that remains gives the rotation wanted, and the pair shrinks |
| Getopt.Scanner.Exchange | src/getopt/getopt.c:302-380 | for all segment lengths, argv is the old one with the skipped non-options and the options behind them exchanged, and the two cursors delimit the moved non-options |
| Getopt.Scanner.Gather | src/getopt/getopt.c:560-566 | options processed behind skipped non-options move in front of them, both in original order |
| Getopt.Scanner.Skip | src/getopt/getopt.c:568-573 | skipping stops at the first element that is not a non-option, and moves each skipped one from what is still to be scanned to what was skipped |
| Getopt.Scanner.StopAtDashes | src/getopt/getopt.c:576-592 | `--` joins the options, everything behind it joins the non-options, with the cursors at the boundary |
| Getopt.Scanner.Settle | src/getopt/getopt.c:558-574 | rearranging argv changes neither the reports to come nor the order of options or non-options |
| Getopt.Scanner.Finish | src/getopt/getopt.c:581-604 | at the end the whole outcome lies in argv: options up to optind, non-options from there |
| Getopt.Scanner.PassBy | src/getopt/getopt.c:613-614 | in the in-order mode a non-option is reported as an argument of option 1 and passed by |
| Getopt.Scanner.StopInOrder | src/getopt/getopt.c:609-612 | in the POSIX mode the first non-option ends the scan |
| Getopt.Scanner.Advance | src/getopt/getopt.c:547-622 | moving to the next element either ends the run, reports a non-option, or stands at an option with the same outcome ahead |
| Getopt.Scanner.DecodeShortHere | src/getopt/getopt.c:778-970 | one short option: result, optarg, optopt, optind and remaining text are those of the decoding specification |
| Getopt.Scanner.DecodeLongHere | src/getopt/getopt.c:693-749 | the same for a long option already found in the table |
| Getopt.NameEnd | src/getopt/getopt.c:651-652 | the name ends at the first `=` or at the end of the text |
| Getopt.FindLong | src/getopt/getopt.c:654-691 | the table loop finds the first exact match, else the first abbreviated one, and reports ambiguity exactly when a clashing abbreviation exists and no exact match does |
| Getopt.Scanner.DecodeHere | src/getopt/getopt.c:624-971 | one option of any kind, including those long-only mode falls back on |
| Getopt.Scanner.DecodeStep | src/getopt/getopt.c:624-971 | the elements an option takes become options passed by, and the rest of the scan starts behind them |
| Getopt.Scanner.Initialize | src/getopt/getopt.c:387-451 | the first call sets the cursors and the ordering so that the whole scan lies ahead |
| Getopt.Scanner.Next | src/getopt/getopt.c:509-622 | each call returns the next event of the left-to-right scan of the original argv, or ends with the scan's layout in argv; optarg and optopt match |
| Getopt.ScanAll | src/getopt/getopt.c:453-507 | whole run, every argv, option string, long-option table and ordering: the calls return exactly the events of the scan, and at the end argv is the head, all options, all non-options, with optind at the boundary |
| Getopt.RotatedSlices | src/getopt/getopt.c:302-380 | what an exchange does to the segments it touches and to those it does not |
| GetoptLaws.ScanSplits | src/getopt/getopt.c:90-96 | options and non-options are a merge of the scanned elements that keeps both orders, so nothing is lost or duplicated |
| GetoptLaws.OnlyPermuteMoves | src/getopt/getopt.c:155-182 | without permutation a run leaves argv in its original order, and in the in-order mode it leaves non-options only if the last element it passed was `--` |
| GetoptLaws.MergeCounts | src/getopt/getopt.c:90-96 | such a merge conserves every element's number of occurrences |
| GetoptLaws.ClusterSplits | src/getopt/getopt.c:453-461 | `-ab` reports what `-a -b` reports when `a` takes no argument |
| GetoptLaws.ShortArgumentAttached | src/getopt/getopt.c:942-967 | `-ofoo` reports what `-o foo` reports when `o` requires an argument |
| GetoptLaws.LongArgumentAttached | src/getopt/getopt.c:697-729 | `--name=arg` reports what `--name arg` reports when the option requires an argument |
| GetoptLaws.UniqueAbbreviation | src/getopt/getopt.c:654-680 | an abbreviation of exactly one row finds that row |
| GetoptLaws.AbbreviationStandsForName | src/getopt/getopt.c:654-749 | such an abbreviation, with any argument, can be replaced by the full name without changing the run |
| GetoptLaws.RescanRepeats | src/getopt/getopt.c:547-622 | scanning the vector a run left behind gives the same outcome if and only if the run did not end with a required argument missing after a non-option had been passed over, a condition on the original arguments |
| GetoptLaws.RescanFindsArgument | src/getopt/getopt.c:949-967 | such an input: `x -o` misses an argument, and the `-o x` it leaves behind does not |
| GetoptLaws.MarkerChangesDecoding | src/getopt/getopt.c:405-414 | the first call and a later one decode the same text alike if and only if the kinds of option they take its first character for do, in a table over kinds, tail and next element |
| GetoptLaws.MarkerBecomesOption | src/getopt/getopt.c:405-414 | in all its uses a character means later what it meant in the first call, if and only if it is not the marker or is listed again with the kind the marker's place gives it, and, requiring an argument, has no `:` hidden behind the marker |
| GetoptLaws.MarkerOnLongOptions | src/getopt/getopt.c:725-738 | a long option decodes alike in both if and only if it does not miss an argument with such a `:` |
| GetoptLaws.MarkerLosesArgument | src/getopt/getopt.c:405-414 | the option string "+a+:", in which the marker is listed again and still changes |
| GetoptLaws.MarkerHidesColon | src/getopt/getopt.c:957-962 | the option string "+:a:", with which a missing argument is reported as `:` first and as `?` later |
| GetoptLaws.MarkerAccepted | src/getopt/getopt.c:405-414 | an argv in which the marker is accepted as an option, and one in which it is not |
| GetoptReports.LongFirst | src/getopt/getopt.c:693-749 | an element `--name` or `--name=...` that finds row i is reported first, with the row, flag, value and argument of the table, and the run goes on behind the elements it takes |
| GetoptReports.LongAlone | src/getopt/getopt.c:740-748 | `--name` without an argument: for a row with a flag the call returns 0 and the value is stored through the flag, else it returns the value and stores nothing; the row number is reported |
| GetoptReports.LongAttached | src/getopt/getopt.c:697-703 | `--name=arg` for a row that takes an argument, required or optional: the same with arg as optarg, even if it is empty |
| GetoptReports.LongSeparate | src/getopt/getopt.c:725-729 | `--name arg` for a row that requires one: the same, and arg is passed by whatever it looks like |
| GetoptReports.LongMissing | src/getopt/getopt.c:730-738 | the complete outcome for `--name` at the end of argv when an argument is required: `:` or `?`, with the value in optopt |
| GetoptReports.LongUnwanted | src/getopt/getopt.c:704-723 | `--name=arg` for a row without an argument: `?`, with the value in optopt, and the run goes on behind the element |
| GetoptReports.LongUnmatched | src/getopt/getopt.c:682-691 | a name that is ambiguous or unknown: `?` with optopt 0 |
| GetoptReports.LookupIs | src/getopt/getopt.c:654-680 | a name is unknown if and only if no row begins with it, and ambiguous if and only if no row has it and two that begin with it differ in argument, flag or value, or at all in the long-only mode |
| GetoptReports.LookupFinds | src/getopt/getopt.c:654-680 | the row found is the first that has the name, or, if none has, the first that begins with it |
| GetoptReports.OneDash | src/getopt/getopt.c:639-642 | in the long-only mode one dash does what two do, except for a single known short option |
| GetoptReports.FallBackAttached | src/getopt/getopt.c:751-776 | there, a text that no row matches is an option with its argument attached, or unknown, by the option string |
| GetoptReports.ShortKindIs | src/getopt/getopt.c:930-948 | an option takes no, a required or an optional argument by the number of colons behind its first place in the option string |
| GetoptReports.ShortAlone | src/getopt/getopt.c:780-970 | `-c` without an argument returns the character |
| GetoptReports.ShortAttached | src/getopt/getopt.c:930-967 | `-carg` for an option that takes an argument, required or optional |
| GetoptReports.ShortSeparate | src/getopt/getopt.c:942-967 | `-c arg` for an option that requires one |
| GetoptReports.ShortMissing | src/getopt/getopt.c:949-962 | the complete outcome for `-c` at the end of argv when an argument is required |
| GetoptReports.ShortUnknown | src/getopt/getopt.c:787-810 | `-c` for a character not listed, or `:`: `?` with the character in optopt |
| GetoptReports.NonOptionFirst | src/getopt/getopt.c:405-449 | a non-option is reported, ends the run or is passed over, by the first character of the option string or, without a marker, by the environment |
| RdsCode.Division | src/rds_mod.c:62-80 | for messages of any length, M(x)x^10 is the feedback bits times the generator plus the register |
| RdsCode.CheckwordIsRemainder | src/rds_mod.c:62-80 | a ten-bit word is the remainder of M(x)x^10 if and only if it is the checkword |
| RdsCode.RemainderUnique | src/rds_mod.c:45-50 | division by the generator has one quotient and one remainder |
| RdsCode.Crc | src/rds_mod.c:62-80 | the low ten bits of the 16-bit register, whose bit 10 is never cleared, are the checkword of the block |
| RdsCode.CodewordChecks | src/rds_mod.c:171-183 | a message followed by its checkword has a zero syndrome |
| RdsCode.BurstDetected | src/rds_mod.c:45-80 | every nonzero error within ten consecutive bits gives a nonzero syndrome, for any message length and position |
| RdsCode.RunLinear | src/rds_mod.c:68-77 | the register is linear in its contents and its input |
| RdsCode.StepKeepsNonzero | src/rds_mod.c:68-77 | without input the register forgets nothing |
| RdsCode.ProtectedDivisible | src/rds_mod.c:171-183 | a transmitted block minus its offset word is a multiple of the generator |
| RdsReception.SyndromeIs | src/rds_mod.c:45-60 | each offset word is the remainder, divided by the generator, of x^16 times the syndrome that Annex B of EN 50067 lists for its block |
| RdsReception.WordsReadBack | src/rds_mod.c:171-183 | the 104 bits of a group: each block begins with its word and ends with the checkword of those bits plus its own offset word |
| RdsCode.EmitBlock | src/rds_mod.c:171-183 | the emitting loops write the block's bits, then checkword plus offset word, and nothing else: the register's stale bits never reach the output |
| RdsGroups.MjdCountsDays | src/rds_mod.c:101-104 | from 1901 on, the formula grows by one per day under the every-fourth-year leap rule |
| RdsGroups.MjdAfterDays | src/rds_mod.c:101-104 | n days later it has grown by n, for every n |
| RdsGroups.MjdOnGregorianCalendar | src/rds_mod.c:101-104 | on the real calendar it grows by one per day if and only if the day is not the end of February of a skipped leap year |
| RdsGroups.MjdSkips | src/rds_mod.c:101-104 | such a day: 28 February 2100 |
| RdsGroups.MjdAnchors | src/rds_mod.c:101-104 | two known day numbers |
| RdsGroups.CtRoundTrip | src/rds_mod.c:106-123 | a receiver reads back day, hour, minute and offset if and only if the offset is between -31 and 31 half hours |
| RdsGroups.BlocksRoundTrip | src/rds_mod.c:106-123 | the sufficient direction, field by field |
| RdsGroups.EpochOffsetUnreadable | src/rds_mod.c:113-121 | with the offset computed from the epoch, the clock time reads back if and only if fewer than 57600 seconds have passed |
| RdsGroups.EpochOffsetMisread | src/rds_mod.c:113-121 | one day after the epoch the offset 48 reads back as -16 |
| RdsGroups.Schedule | src/rds_mod.c:129-169 | however clock-time groups interrupt it, the plain groups are 0A, 0A, 0A, 0A, 2A for ever, with the segment counters in step |
| RdsGroups.PairRoundTrip | src/rds_mod.c:152-160 | a pair of characters reads back if and only if the second is below 0x80 or the first is 0xFF |
| RdsGroups.PairLost | src/rds_mod.c:152-160 | a pair that loses its first character, and one that does not |
| RdsGroups.SegmentArrives | src/rds_mod.c:144-169 | a segment is received, as the pairs of bytes sent for it, once as many plain groups have passed as its wait, for any characters |
| RdsGroups.Reception | src/rds_mod.c:144-169 | from any point of the schedule, with clock-time groups interleaved arbitrarily: after five plain groups the receiver has the 8-character name, and after 80 the 64-character text, if and only if every pair of it reads back |
| RdsReception.HeaderReads | src/rds_mod.c:134-169 | read by the fields of the standard, every group carries the program identification, the traffic program flag and type 0A, 2A or 4A; a name group the traffic announcement bit, its segment and the filler code twice; a text group its segment |
| RdsReception.ClockOnceAMinute | src/rds_mod.c:97-126 | the k-th group of any run is a clock time if and only if the minute differs from the one read for the group before |
| RdsReception.FirstIsClock | src/rds_mod.c:87-97 | the first group of all is a clock time |
| RdsReception.BitsAreGroups | src/rds_mod.c:204-216 | the bits the modulator is fed with are the groups of the run end to end, one for each 104 bits, whatever the clock reads |
| RdsReception.WordsOnAir | src/rds_mod.c:171-183 | block i of group k is found, with its checkword and offset word, 104 k + 26 i bits from where the first group begins |
| RdsEncoder.Encoder.SetText | src/rds_mod.c:275-297 | a setter stores the text cut or padded with spaces to the field's length |
| RdsEncoder.PaddedIs | src/rds_mod.c:275-297 | what is stored is the beginning of a long text, or a short one followed by characters 32, and holds no zeros |
| RdsEncoder.Encoder.SetRt | src/rds_mod.c:275-285 | only the radio text changes |
| RdsEncoder.Encoder.SetPs | src/rds_mod.c:287-297 | only the station name changes |
| RdsEncoder.Encoder.GetCtGroup | src/rds_mod.c:85-127 | a clock-time group is built exactly when the minute differs from the last one sent |
| RdsEncoder.Encoder.NextBlocks | src/rds_mod.c:134-169 | blocks and counters follow the functional group generator |
| RdsEncoder.Encoder.GetGroup | src/rds_mod.c:134-184 | the 104 bits are those of the generated group, each block protected with its own offset word |
| RdsModulator.SuperposedIsEnvelope | src/rds_mod.c:225-237 | the sum over all symbols equals the sum over the at most three that overlap a position |
| RdsModulator.SampleStable | src/rds_mod.c:186-268 | samples already determined do not depend on later bits |
| RdsModulator.DifferentialDecoding | src/rds_mod.c:218-223 | comparing neighbouring symbols gives the bits back, in either polarity |
| RdsModulator.PhaseIs | src/rds_mod.c:253-263 | the carrier phase of sample n is n mod 4 |
| RdsModulator.InvertedIsParity | src/rds_mod.c:218-223 | a symbol is inverted if and only if the number of ones up to its bit is odd |
| RdsModulator.SymbolAdds | src/rds_mod.c:225-237 | symbol k adds the 576 samples of the waveform from position 192 k on, with the sign its parity says, and nothing elsewhere |
| RdsModulator.SampleIs | src/rds_mod.c:253-263 | samples 4m and 4m + 2 are 0; sample 4m + 1 is the superposition of all symbols begun, and sample 4m + 3 its negative |
| RdsModulator.Demodulated | src/rds_mod.c:253-263 | multiplied by the carrier 0, 1, 0, -1 again, every odd sample is the superposition |
| RdsModulator.BitCursorStep | src/rds_mod.c:218-223 | the coder's output for a bit is the parity of all bits up to it |
| RdsModulator.WindowAdd | src/rds_mod.c:225-241 | adding a waveform to the ring adds one symbol to the superposition at every one of the 768 positions it stands for: no live slot is aliased |
| RdsModulator.WindowAdvance | src/rds_mod.c:247-251 | a slot read and cleared correctly stands for the position 768 further on |
| RdsModulator.Modulator.AddWaveform | src/rds_mod.c:225-237 | the wrapping loop adds plus or minus the waveform at consecutive ring slots |
| RdsModulator.Modulator.PlaceSymbol | src/rds_mod.c:225-244 | placing a symbol keeps the ring a window of the superposition |
| RdsModulator.Modulator.ReadSlot | src/rds_mod.c:247-251 | the slot read is the envelope of the unbuffered signal at its position |
| RdsModulator.Modulator.FetchGroup | src/rds_mod.c:213-216 | a fetched group extends the bit stream by the next group of the encoder's run and leaves the samples so far as they were |
| RdsModulator.Modulator.GetSamples | src/rds_mod.c:191-268 | for any run length and any partition into calls, sample n is the 57 kHz factor times the differentially coded superposition at n-1, of the bits of the groups the encoder generated |
| XferPool.GetNextXfer | src/libosmo-fl2k.c:497-524 | the scan returns the first empty transfer, or the filled one with the lowest number, or none exactly if there is none |
| XferPool.AllocSubmitTransfers | src/libosmo-fl2k.c:645-679 | n of n + 2 transfers start as submitted, the rest as empty |
| XferPool.RunKeepsInv | src/libosmo-fl2k.c:526-559 | the pool, order and counting invariants hold in every state of every interleaving of worker, completions, submissions and underflow resubmissions |
| XferPool.FifoWithoutGaps | src/libosmo-fl2k.c:497-558 | fresh submissions carry 0, 1, 2, ... each once, and the waiting numbers are exactly the interval from the next to send to the last published, one transfer each |
| XferPool.BlocksArrive | src/libosmo-fl2k.c:908-919 | in every reachable state, the k-th fresh submission carried the application block that was given number k |
| XferPool.PoolConserved | src/libosmo-fl2k.c:534-558 | between callbacks exactly n transfers are in flight, never more; the transfer being filled is never in flight; completions are fresh submissions plus underflows; every block is numbered or dropped |
| XferPool.AtMostTwoBehind | src/libosmo-fl2k.c:859-920 | at most two numbered blocks are unsent at any time |
| XferPool.LibusbCallback | src/libosmo-fl2k.c:526-570 | for every status: a completed transfer is replaced by the next filled one and becomes empty, or is resubmitted and an underflow counted; the device is given up for any other status but cancelled, or when a submission finds it gone |
| XferPool.FillNext | src/libosmo-fl2k.c:888-919 | the first empty transfer becomes filled with the next number; without one the worker sleeps and looks again at what the callbacks have made of the transfers, unless the device has stopped, and skips the block if there is still none |
| XferPool.ReplacingIsSteps | src/libosmo-fl2k.c:534-547 | the uninterrupted callback is a series of steps of the state machine |
| XferPool.UnderflowIsSteps | src/libosmo-fl2k.c:548-557 | so is the one that finds no filled transfer |
| XferPool.FillingIsSteps | src/libosmo-fl2k.c:884-919 | so is an uninterrupted round of the worker |
| Scatter.Xor4IsXor | src/libosmo-fl2k.c:803-856 | the index transformation is the bitwise exclusive or with 4 |
| Scatter.OffsetsArePlaces | src/libosmo-fl2k.c:803-856 | the twenty-four listed offsets are the packed B, G, R order with index bit 2 flipped |
| Scatter.PlaceBijective | src/libosmo-fl2k.c:793-857 | for every whole number of groups, the samples of three channels and the bytes of the transfer correspond one to one, with an explicit inverse |
| Scatter.ConvertR | src/libosmo-fl2k.c:793-813 | the red loop writes sample k, shifted, at its place and no other byte; nothing without a buffer |
| Scatter.ConvertG | src/libosmo-fl2k.c:815-835 | the same for green |
| Scatter.ConvertB | src/libosmo-fl2k.c:837-857 | the same for blue |
| Scatter.ConvertersCommute | src/libosmo-fl2k.c:909-916 | in any order and over any old contents the three converters give the same transfer |
| Scatter.ChannelsRecovered | src/libosmo-fl2k.c:793-857 | every sample of every channel can be read back from its own byte |
| Scatter.ShiftIs | src/libosmo-fl2k.c:793-813 | a signed sample s is sent as s + 128, an unsigned one as it is |
| Scatter.FillTransfer | src/libosmo-fl2k.c:908-916 | the worker's three calls produce that transfer; bytes of absent channels keep their old values |
| Pll.Search | src/libosmo-fl2k.c:243-259 | over a grid of any size and for any measure of the error, the loops choose a setting of least error, the first visited among equals, and none only for an empty grid |
| Pll.ChoiceUnique | src/libosmo-fl2k.c:252-256 | there is only one such setting |
| Pll.ChoiceMonotone | src/libosmo-fl2k.c:228-263 | a higher target never gets a lower rate |
| Pll.ChoiceStable | src/libosmo-fl2k.c:228-263 | asking for a reported rate gives it again |
| Pll.RoundingChoosesAlike | src/libosmo-fl2k.c:252-256 | any monotone rounding of the error that is exact up to 2^24, as in single precision, gives the same choice once some setting comes within 2^24 of the target |
| Pll.PackFields | src/libosmo-fl2k.c:211-247 | the register's fields decode to the setting they were packed from |
| Pll.FrequencyInRange | src/libosmo-fl2k.c:207-226 | every setting gives a 32-bit rate whose error is below the loop's initial one |
| Pll.FrequencyIs | src/libosmo-fl2k.c:216-220 | the rate of every setting is the exact 160 MHz * mult / div * (1 + frac / (16 mult)), cut off by at most frac + 1 Hz |
| Pll.FrequencyIncreases | src/libosmo-fl2k.c:218-220 | a higher fraction gives a strictly higher rate |
| Pll.HundredMegahertz | src/libosmo-fl2k.c:228-263 | for 100 MHz the choice is multiplier 6, divider 10, fraction 4, register 0x64610A, which gives that rate exactly |
| Pll.SetSampleRate | src/libosmo-fl2k.c:228-263 | the register written is the packed choice by rounded errors and the rate reported is its frequency; if any setting comes within 2^24 of the target it is the choice by exact errors |
| Dds.PhaseIsQuadratic | src/fl2k_fm.c:199-210 | without wrap-around, phase after n samples is phase + n step + slope n(n-1)/2 |
| Dds.PhaseInClosedForm | src/fl2k_fm.c:199-210 | the register holds that value modulo 2^32, whatever the width of unsigned long |
| Dds.SamplesInClosedForm | src/fl2k_fm.c:199-217 | sample i is the table entry for the closed-form phase, always inside the table |
| Dds.LowBitsDecide | src/fl2k_fm.c:147-154 | only the low 32 bits of step and slope matter, so 32-bit and 64-bit builds agree |
| Dds.SamplesAppend | src/fl2k_fm.c:212-217 | playing n + m samples is playing n and then m |
| Dds.Oscillator.Real | src/fl2k_fm.c:199-210 | one sample and the next register contents |
| Dds.Oscillator.RealBuf | src/fl2k_fm.c:212-217 | the loop writes exactly the next samples and nothing else |
| FmWorker.TailIsWindow | src/fl2k_fm.c:241-258 | a buffer that is full is the next window of the stream |
| FmWorker.WindowsStable | src/fl2k_fm.c:241-258 | extending the stream does not change published windows |
| FmWorker.PlayedPhase | src/fl2k_fm.c:199-217 | after any series of entries the phase is the sum of count * step + slope * count (count - 1) / 2 over them, modulo 2^32 |
| FmWorker.StreamAt | src/fl2k_fm.c:199-238 | sample i of entry e is the table entry for the phase that the entries before have reached, plus i steps of this entry and i (i - 1) / 2 times its slope, modulo 2^32, one turn being the 256 values of the table |
| FmWorker.StreamIsTones | src/fl2k_fm.c:199-238 | the same for every sample of the stream |
| FmWorker.Chirp | src/fl2k_fm.c:199-210 | from phase 0, with a step and slope of one table place each, the samples are places 0, 1, 3 and 6 |
| FmWorker.Worker.Append | src/fl2k_fm.c:245-260 | samples extend both the stream and the current buffer, inside its bounds |
| FmWorker.Worker.Swap | src/fl2k_fm.c:247-253 | from the second full buffer on, the swap publishes the buffer just filled |
| FmWorker.Worker.Cross | src/fl2k_fm.c:241-258 | an entry that reaches past the end of a buffer continues in the next one without a gap |
| FmWorker.Worker.Round | src/fl2k_fm.c:236-265 | one round appends one entry's samples to the stream |
| FmWorker.PlayAll | src/fl2k_fm.c:236-265 | for any series of entries, the published buffers are windows 1, 2, 3, ... of the one continuous stream, and each of their samples is the tone that step and slope of its entry give in closed form; only window 0 and the unfinished end are missing |
| FmWorker.Coverage | src/fl2k_fm.c:241-258 | all but at most two buffers' worth of the stream has been published |
| FmModulator.HoldsStep | src/fl2k_fm.c:303-304 | writing the next value into the ring overwrites only the one a whole ring older |
| FmModulator.SlopeLeads | src/fl2k_fm.c:301-302 | carrier_per_signal steps of a slope lead from its frequency to the next |
| FmModulator.TakenIs | src/fl2k_fm.c:320-326 | a round takes nothing if there is room for at most one sample, and otherwise all that is offered, all there is room for, or 1024 |
| FmModulator.BasebandIs | src/fl2k_fm.c:331-338 | audio is scaled by 32767, and with RDS the sum is four fifths audio and one fifth RDS; it stays within -1 and 1 if and only if the audio is no less than -32767 |
| FmModulator.Deviation | src/fl2k_fm.c:290-292 | silence gives the carrier, full scale the whole deviation; a frequency is within the deviation if and only if its sample is within -1 and 1 |
| FmModulator.FrequenciesAre | src/fl2k_fm.c:331-344 | each frequency of a batch in terms of its audio and RDS samples |
| FmModulator.Modulator.ModulateSample | src/fl2k_fm.c:286-307 | one sample appends its frequency, and the slope towards it goes to the slot before |
| FmModulator.Modulator.WriteLen | src/fl2k_fm.c:270-284 | the cyclic distance to the reader, cut to the maximum |
| FmModulator.Modulator.Batch | src/fl2k_fm.c:331-344 | a batch appends the frequencies of its samples and changes only that many slots from the write position on |
| FmModulator.Modulator.MonoRound | src/fl2k_fm.c:320-348 | a round takes nothing if writelen allows at most one sample, else as many as it allows, the audio buffer holds and the file still has; exactly their frequencies are written, between the write and read positions |
| FmModulator.Continuity | src/fl2k_fm.c:286-307 | over the reals, for every live pair of slots, across batches and ring wrap: frequency + carrier_per_signal * slope is the next frequency |
| FmLink.WritingKeepsStep | src/fl2k_fm.c:270-284 | what writelen allows never reaches a slot still to be read |
| FmLink.ReaderSees | src/fl2k_fm.c:237-239 | a reader in step finds the next frequency, with the slope to the one behind it, or, in the newest slot, the slope of a whole ring ago |
| FmLink.CaughtUp | src/fl2k_fm.c:270-284 | once the reader has read the newest slot the modulator writes nothing more, however many rounds follow |
| FmLink.Interplay | src/fl2k_fm.c:223-349 | any interleaving of modulator rounds and reads, up to the first read that overtakes the modulator and no earlier: the frequencies written and the slots read are those of the two threads without a ring, every frequency is read once and in order, and its slope leads to the next one written by then, or is that of a whole ring ago in the newest slot |
| FmLink.Broadcast | src/fl2k_fm.c:223-349 | whatever the conversion to phase increments, the buffers published hold, in order and in closed form, the tones of the entries read from the ring, with their own steps and slopes |
| SoapyRing.FloatFitsByte | src/SoapySDR/Streaming.cpp:393-403 | the conversion of a float is defined if and only if it lies between -129/128 and 1, and there the signed byte is less than 1 away from 128 times the float, on the side of zero; outside it is not |
| SoapyRing.TruncateIs | src/SoapySDR/Streaming.cpp:400-402 | the whole number a float is cut off to is less than 1 away from it, on the side of zero |
| SoapyRing.HalfScale | src/SoapySDR/Streaming.cpp:400-402 | 0.5 is sent as 64 |
| SoapyRing.EighthIs | src/SoapySDR/Streaming.cpp:412-413 | 8 times the quotient is within 7 of the sample, on the side of zero |
| SoapyRing.ShortFitsByte | src/SoapySDR/Streaming.cpp:405-414 | a 16-bit sample survives the division by 8 if and only if it is between -1031 and 1023; then 8 times the signed byte is within 7 of it, on the side of zero |
| SoapyRing.ShortWraps | src/SoapySDR/Streaming.cpp:405-414 | two samples that do not survive |
| SoapyRing.PlusIsModulo | src/SoapySDR/Streaming.cpp:198-199 | advancing a ring position modulo the ring size |
| SoapyRing.QueueSnoc | src/SoapySDR/Streaming.cpp:610-619 | releasing a buffer appends it to the filled ones |
| SoapyRing.QueueUntouched | src/SoapySDR/Streaming.cpp:469-477 | writing behind the queue leaves it alone |
| SoapyRing.TakeStep | src/SoapySDR/Streaming.cpp:183-205 | tx_callback keeps the ring law and moves the oldest filled buffer to the sent ones |
| SoapyRing.DrainStep | src/SoapySDR/Streaming.cpp:556-571 | the exchange in a drain brings the head back to the tail |
| SoapyRing.NeverTheHeld | src/SoapySDR/Streaming.cpp:173-183 | the buffer tx_callback selects is never the one the writer holds |
| SoapyRing.Forgetting | src/SoapySDR/Streaming.cpp:353-364 | forgetting a held buffer leaves the head one buffer too far ahead, before and after the drain that activation asks for |
| SoapyRing.AstrayIsUnlawful | src/SoapySDR/Streaming.cpp:353-364 | such a ring is lawful if and only if it has a single buffer |
| SoapyRing.AstrayForEver | src/SoapySDR/Streaming.cpp:556-619 | no callback, acquisition, release or further drain brings it back |
| SoapyRing.AstrayMissesTheBuffer | src/SoapySDR/Streaming.cpp:183-199 | the buffer completed next is the one tx_callback then takes if and only if the ring has a single buffer |
| SoapyRing.AstrayPair | src/SoapySDR/Streaming.cpp:353-364 | the same with two buffers in numbers |
| SoapyRing.Ring.Activate | src/SoapySDR/Streaming.cpp:353-364 | activation leaves the driver in a valid state, and a lawful ring after the pending drain, if and only if no buffer was partly written or the ring has one buffer |
| SoapyRing.FragmentsConserve | src/SoapySDR/Streaming.cpp:467-481 | splitting a write makes no difference to what is kept |
| SoapyRing.FullBufferIsWindow | src/SoapySDR/Streaming.cpp:467-484 | the j-th full buffer holds exactly elements jB to (j+1)B of each channel |
| SoapyRing.WholeBuffersAreWindows | src/SoapySDR/Streaming.cpp:467-484 | the same for every state of the driver object |
| SoapyRing.ConvertInto | src/SoapySDR/Streaming.cpp:388-434 | the conversion loops change exactly the addressed bytes; the 8-bit formats copy nothing |
| SoapyRing.Ring.TxCallback | src/SoapySDR/Streaming.cpp:145-210 | the buffer at the tail is handed over per enabled channel and is not the held one, or an underflow is noted and nothing moves |
| SoapyRing.Ring.Acquire | src/SoapySDR/Streaming.cpp:542-607 | for every interleaving of callbacks, rate changes and status polls, exactly which answer is given and what is shared afterwards: an underflow if and only if one is noted when the writer looks and no reset has cleared it, a timeout if and only if nothing frees a buffer while it waits, else a fresh buffer; an underflow and a reset drain, nothing else loses completed buffers |
| SoapyRing.Ring.Begin | src/SoapySDR/Streaming.cpp:444-457 | a reset drops the unfinished buffer from what is kept and drains the queue; otherwise the current buffer goes on, or the answer is that of acquiring one |
| SoapyRing.Ring.Release | src/SoapySDR/Streaming.cpp:610-619 | the held buffer joins the completed ones |
| SoapyRing.Ring.WriteChannels | src/SoapySDR/Streaming.cpp:469-477 | every enabled channel's row receives the converted elements at its write pointer |
| SoapyRing.Ring.WriteStream | src/SoapySDR/Streaming.cpp:436-486 | with events between any two steps: exactly what is returned, how much room is left and what is shared afterwards; as many elements as fit are kept, a buffer is released exactly when full, what was sent only grows, and unless a reset or an underflow drains, every full buffer stays in line for the driver |
| SoapyRing.Ring.WriteAll | src/SoapySDR/Streaming.cpp:436-486 | any series of calls answers as the counters alone would; while no reset is requested the bytes kept per channel are the converted input accepted, end to end, and while no underflow is reported either the buffers completed are the buffers filled |
| SoapyRing.Transmit | src/SoapySDR/Streaming.cpp:436-486 | a stream set up, activated and written to in any split: while no reset is requested and no underflow reported, the buffers sent are in order the windows of each enabled channel's converted input |
| SoapyRing.HandedOver | src/SoapySDR/Streaming.cpp:183-196 | the j-th buffer handed to the driver holds, for each enabled channel, the j-th window of its converted input, and nothing for the others |
| SoapyReports.FilledIs | src/SoapySDR/Streaming.cpp:161-205 | the number of filled buffers falls by the number of callbacks without a lost deadline, down to none |
| SoapyReports.UnderflowIs | src/SoapySDR/Streaming.cpp:161-180 | an underflow is noted if and only if some callback since the last poll of the status reported a lost deadline or found all buffers taken, or one was noted before and not polled |
| SoapyReports.WaitedInVain | src/SoapySDR/Streaming.cpp:573-590 | waiting for a buffer is in vain if and only if all were filled and no callback takes one |
| SoapyReports.AnswerIs | src/SoapySDR/Streaming.cpp:436-486 | a call fills an unfinished buffer without looking unless a reset is requested; otherwise it answers an underflow if and only if one is noted and not polled since the call or the reset began, a timeout if and only if there is none, no reset, and all buffers stay filled, and else as many elements as fit |
| SoapyReports.ReportedOnce | src/SoapySDR/Streaming.cpp:565-571 | after an underflow has been answered the ring is empty and none is noted |

## Left out

- Getopt.ScanAll: option strings that ask for the `-W foo` convention with `W;` are excluded by NoLongShort; there the code may count elements that do not exist, because an ambiguous name advances optind once more.
- Getopt.Scanner.DecodeShortHere: the same exclusion.
- Getopt.Scanner.DecodeHere: the same exclusion.
- Getopt.Scanner.DecodeStep: the same exclusion.
- Getopt.Scanner.Next: the same exclusion; error messages, the `_LIBC` flags, a caller that moves optind back in mid-scan, and calls after the end of a run are not modelled.
- Getopt.Scanner.DecodeLongHere: a long option whose value is -1 is an event of the model, while a C caller cannot tell it from the end.
- RdsEncoder.Encoder.GetCtGroup: the clock readings are parameters; that the two reads of the time may fall on both sides of a minute is left to them. `char` is taken as signed.
- RdsModulator.Modulator.GetSamples: doubles are reals, and the waveform is any sequence of 576 reals; rounding is not modelled.
- XferPool.RunKeepsInv: a scan for a transfer is one atomic step, submissions succeed, and the run stays in the running state; weak memory, stopping and liveness are not modelled.
- XferPool.AllocSubmitTransfers: only the states; allocation, zero-copy buffers and failing submissions are not modelled.
- Pll.SetSampleRate: exact integer arithmetic in place of double, with an arbitrary rounding for the single-precision absolute value; the output divider is 1 as in the source; writing the register is I/O.
- Dds.Oscillator.SetFreq: frequency and slope are given as phase increments; the conversion from double, of negative slopes in particular, and the sine table's values are not modelled.
- FmLink.Interplay: what is read from slot 0, and the slope read from a newest slot in the first turn of the ring, are not described, as they depend on what the allocation returned; a round of the modulator is one step, and nothing is said from a read that overtakes the modulator on, against which the code has no guard.
- FmWorker.PlayAll: the entries are given; the conversion of frequency and slope to phase increments is not modelled; the condition wait after a swap and the exit flag are not modelled. carrier_per_signal is constant and at most the buffer length.
- FmModulator.Modulator.MonoRound: doubles are reals; the RDS samples are a parameter, and the reader's position is the one read at the start of the round.
- SoapyRing.FloatFitsByte: outside that interval the conversion to int8_t is undefined in C++, and wrapping around is the model's choice.
- SoapyRing.Ring.TxCallback: one atomic step; tick counts and the driver's use of a buffer after the callback returns are not modelled.
- SoapyRing.Ring.WriteStream: 8-bit formats copy nothing in the source and have no conservation law here; a channel listed twice, deactivateStream and the direct-access API used out of order are not modelled. An unfinished buffer dropped by a reset is released as it is and may still be taken by a callback before the drain, as in the source. Floats are reals.
- set_rds_pi and set_rds_ta, which assign one field.
- The stereo modulator, which differs from the mono one in how a sample is mixed.
- libusb, I2C and register access, device enumeration, opening and closing, and stopping a transmission.
- fl2k_file, fl2k_tcp, fl2k_test, and the SoapySDR settings and registration files, which are plumbing or tables.
