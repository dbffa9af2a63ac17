# Model of the libfaad, ADPCM and capture code

A Dafny model of the audio decoders and of the 10-bit video capture path, with
proofs of what they compute. `dafny verify dfyconfig.toml` checks all of it.

| part | modules |
|---|---|
| Mixed-radix FFT | `Complexes`, `Dft`, `DftInverse`, `CfftButterflies`, `CfftPasses`, `Cfft`, `CfftFactors`, `CfftDriver`, `CfftForward`, `CfftInfo` |
| MDCT around it | `Mdct`, `MdctInfo`, `MdctFormula`, `MdctExact` |
| Filter bank | `FilterBankSpec`, `FilterBank`, `FilterBankRuns`, `FilterBankExact`, `FilterBankCodec`, `FilterBankShort`, `FilterBankSwitch` |
| Bit reader, LATM/LOAS | `BitWords`, `BitReader`, `LatmSyntax`, `Latm`, `LatmEncode`, `LatmFrames` |
| Huffman codeword reordering | `HcrBits`, `HcrDecode`, `HcrCode`, `HcrMerge`, `HcrSchedule`, `Hcr`, `HcrSegments`, `HcrWrite`, `HcrFrame`, `HcrSort`, `HcrOrder` |
| Pixel kernel | `Kernel` |
| Capture pipeline | `CapturePath`, `InputCache` |
| ADPCM | `AdpcmIma`, `AdpcmMs` |
| Stereo stages | `Stereo` |

Rows about libfaad/mdct.c cite the lines of libfaad/filtbank.c that call it.

Arithmetic is exact: `real_t` is `real`, and `cos` and `sin` of 2 pi/n enter as a
primitive root of unity together with the constants of the radix 3 and 5
butterflies that belong to it. Memory that the code changes in place is an array or a
field; the answers of devices and of the GPU are parameters, and downstream releases
buffers at any time.

Three results are negative:

- The forward radix-5 butterfly forms its two products with swapped roles
  (libfaad/cfft.c:519-522 and 616-619), which exchanges two inputs. `cfftf` is therefore
  the DFT exactly for lengths that five does not divide. 1024-sample frames are not
  touched; for 960-sample frames the long transform has N/4 = 480, so `faad_mdct` and with
  it `filter_bank_ltp` are not inverted by `ifilter_bank`, whatever the windows.
- The merge of the trailing bits in codeword reordering (libfaad/hcr.c:318-322) takes
  the top 32 bits of the last segment where the low 32 belong, so it is right exactly
  when at most 32 bits were left.
- The size left for the SBR extension is compared as an unsigned number
  (libfaad/decoder.c:408 and 415, libfaad/bits.c:123), so the parser looks for the
  extension also when the announced size is smaller than the configuration.

Main results, in reading order: `CfftForward.RoundTripIff`, `MdctFormula.ImdctFormula`,
`MdctExact.ForwardFormulaIff`, `MdctExact.AliasingIff`, `FilterBankExact.ReconstructionIff`,
`FilterBankCodec.BankReturnsIff`, `FilterBankSwitch.DecodeRun`, `BitReader.PerformAll`,
`LatmFrames.ParseEncoded`, `HcrCode.WrittenIs`, `HcrCode.DecodedIsWritten`,
`HcrFrame.DecodeEncoded`, `HcrSort.VisitedOnce`, `HcrOrder.VisitOrder`, `Kernel.Dispatch`,
`CapturePath.PathB.Create`, `CapturePath.Session`, `InputCache.Session`,
`AdpcmIma.DecodersClose`, `AdpcmMs.DecodeBlock`, `Stereo.Commute`.

## Model

| member | source | states |
|---|---|---|
| CfftButterflies.TwiddleIsMul | libfaad/common.h:288-293 | the twiddle multiplication of the backward passes is the complex product with the table entry, that of the forward passes the product with its conjugate |
| CfftButterflies.Fly2Correct | libfaad/cfft.c:71-151 | radix 2: both outputs are the DFT of length two, in either direction |
| CfftButterflies.Fly3Correct | libfaad/cfft.c:154-280 | radix 3: all three outputs are the DFT of length three, for either sign |
| CfftButterflies.Fly4Correct | libfaad/cfft.c:283-447 | radix 4: all four outputs are the DFT of length four, for either sign |
| CfftButterflies.Fly5Backward | libfaad/cfft.c:449-653 | radix 5 with isign 1: all five outputs are the DFT of length five |
| CfftButterflies.Fly5Forward | libfaad/cfft.c:519-528 | radix 5 with isign -1: the DFT of length five with the third and fourth inputs exchanged, because the two products are formed with swapped roles |
| Cfft.Column2 | libfaad/cfft.c:71-151 | one turn of the radix-2 loops overwrites the two cells of its column with those of one pass of the self-sorting factorisation and no other cell; with ido 1 only for l1 1 |
| Cfft.Column3 | libfaad/cfft.c:154-280 | the same for radix 3 |
| Cfft.Column4 | libfaad/cfft.c:283-447 | the same for radix 4 |
| Cfft.Column5 | libfaad/cfft.c:449-653 | the same for radix 5, on inputs exchanged where the forward butterfly exchanges them |
| CfftPasses.StoredColumn | libfaad/cfft.c:71-653 | each value a pass stores (butterfly output times the tabulated twiddle) is the value the self-sorting factorisation asks for at that cell |
| Cfft.Passf | libfaad/cfft.c:71-653 | a whole pass, with its loops over rows and columns, leaves exactly one self-sorting step of its input in the other array |
| CfftFactors.Record | libfaad/cfft.c:866-876 | storing a factor keeps those found before; a factor two moves the others up and goes in front |
| CfftFactors.Factorise | libfaad/cfft.c:832-880 | the goto loops terminate for every n from 2 to 65535; the product of the stored factors is n, at most ten are stored, two occurs at most in front, and a number without prime factors above five gets only factors up to five |
| CfftFactors.FactorCount | libfaad/cfft.c:832-880 | why at most ten factors can occur, so that 15 slots are enough |
| CfftFactors.FillTable | libfaad/cfft.c:882-920 | the table holds, for every factor, the powers of the root that its pass reads, where the driver will look for them |
| CfftFactors.Cffti1 | libfaad/cfft.c:832-922 | both halves together |
| CfftDriver.Turn | libfaad/cfft.c:668-733 | in every turn of the driver l1 * ip * ido is n, iw is n minus the product of the factors still to come, the twiddle indices stay below n, and a factor two comes with l1 1 |
| CfftDriver.Cfftf1 | libfaad/cfft.c:660-820 | ping-ponging between the two arrays and copying back leaves the result of all passes in the caller's array |
| Dft.PassKeepsRows | libfaad/cfft.c:71-653 | one self-sorting step keeps the row form: before it the rows, transformed, give the coefficients congruent to their number modulo l1; after it modulo l1 * ip |
| CfftDriver.RunIsTransform | libfaad/cfft.c:660-820 | the composition of all passes is the DFT, unless a radix-5 pass runs forward |
| CfftForward.ForwardFails | libfaad/cfft.c:519-522 | for every length with a factor five there is an impulse on which the forward run is not the DFT |
| CfftForward.ForwardIff | libfaad/cfft.c:822-825 | cfftf is the forward DFT on all inputs if and only if five does not divide the length (factors up to five) |
| CfftForward.BackwardCorrect | libfaad/cfft.c:827-830 | cfftb is the backward DFT on every input, for every length with factors up to five |
| CfftForward.RoundTripIff | libfaad/cfft.c:822-830 | cfftb after cfftf multiplies every input by n if and only if five does not divide n |
| CfftForward.RootOfFour | libfaad/cfft.c:882-920 | the conditions on the root of unity can be met: the imaginary unit meets them for length four |
| DftInverse.InverseLaw | libfaad/cfft.c:822-830 | the forward and the backward DFT undo each other up to the factor n |
| CfftInfo.Info.constructor | libfaad/cfft.c:924-971 | cffti leaves factors and twiddles that meet what the two transforms need |
| CfftInfo.Info.Cfftf | libfaad/cfft.c:822-825 | in place: the forward DFT of the old contents when five does not divide the length, and always the composition of the passes |
| CfftInfo.Info.Cfftb | libfaad/cfft.c:827-830 | in place: the backward DFT of the old contents |
| MdctInfo.Info.FaadImdct | libfaad/filtbank.c:110-130 | the inverse transform called here (libfaad/mdct.c:136-237), all loops and the FFT: every one of the N outputs is that of the formula with the exact backward DFT, written at the caller's offset, and nothing else is written |
| MdctInfo.Info.FaadMdct | libfaad/filtbank.c:134-156 | the forward transform called here (libfaad/mdct.c:240-306), all loops and the FFT as it runs: every one of the N outputs |
| Mdct.AliasingIdentity | libfaad/filtbank.c:110-156 | with an exact forward DFT, a block comes back from both transforms as itself minus or plus its mirror image, with scale one |
| MdctExact.AliasingFails | libfaad/filtbank.c:134-156 | when five divides N/4 some block comes back as something else |
| MdctExact.AliasingIff | libfaad/filtbank.c:110-156 | faad_imdct after faad_mdct gives every block back aliased if and only if five does not divide N/4 |
| MdctFormula.ImdctFormula | libfaad/filtbank.c:110-130 | the inverse transform (libfaad/mdct.c:136-237) is the one of its definition: output t is 2/N times the sum over j of X[j] cos(2 pi/N (t + 1/2 + N/4)(j + 1/2)), for every length |
| MdctFormula.ForwardFormula | libfaad/filtbank.c:134-156 | the forward transform (libfaad/mdct.c:240-306) around an exact DFT is the one of its definition: coefficient t is twice the sum over u of x[u] cos(2 pi/N (u + 1/2 + N/4)(t + 1/2)), the mirrored half of the outputs included |
| MdctExact.ForwardFormulaIff | libfaad/filtbank.c:134-156 | with the FFT as it runs, faad_mdct computes these sums on every block if and only if five does not divide N/4 |
| FilterBank.Bank.constructor | libfaad/filtbank.c:48-91 | filter_bank_init ties window lengths and the three transforms to one frame length |
| FilterBank.AddLong | libfaad/filtbank.c:213-218 | first half of the long window: old overlap plus windowed data, in every cell |
| FilterBank.SaveStart | libfaad/filtbank.c:241-251 | the new overlap of LONG_START in its flat, falling and zero part, every cell written |
| FilterBank.AddShortRow | libfaad/filtbank.c:269-277 | one row of the eight-short sums into the output |
| FilterBank.AddShort | libfaad/filtbank.c:265-277 | eight-short output: the sum of all overlapping short blocks plus the old overlap, in every cell |
| FilterBank.SaveShort | libfaad/filtbank.c:279-291 | the rest of that sum as the new overlap, every cell written |
| FilterBank.AddStop | libfaad/filtbank.c:298-308 | LONG_STOP output in its zero, rising and flat part |
| FilterBank.OverlapAdd | libfaad/filtbank.c:207-315 | all four window sequences implement one overlap-add: output is old overlap plus first half of the windowed block, new overlap its second half |
| FilterBank.Bank.ShortTransforms | libfaad/filtbank.c:254-263 | the eight short inverse transforms fill the local buffer one after the other |
| FilterBank.Bank.ShortInverseAt | libfaad/filtbank.c:254-263 | short block b of them is the inverse transform of the b-th eighth of the coefficients |
| FilterBank.Bank.Transforms | libfaad/filtbank.c:110-130 | one long inverse transform fills the local buffer, or eight short ones, each eighth of it from its own eighth of the coefficients |
| FilterBank.Bank.IfilterBank | libfaad/filtbank.c:159-329 | the whole of ifilter_bank, transforms included, is the windowed overlap-add of that block |
| FilterBank.Bank.FilterBankLtp | libfaad/filtbank.c:334-407 | windowing and forward transform for the sequences without short blocks |
| FilterBankRuns.SynthesisIsLayered | libfaad/filtbank.c:207-315 | after any number of frames the output is the sum of all windowed blocks laid at multiples of the frame length, and the overlap is the rest of it |
| FilterBankRuns.Overlapping | libfaad/filtbank.c:207-405 | for legal neighbouring frames with power-complementary slopes the aliased parts cancel |
| FilterBankRuns.PerfectReconstruction | libfaad/filtbank.c:159-407 | every legal run of ONLY_LONG, LONG_START and LONG_STOP frames comes back as the samples from the second frame on, with scale one, when five does not divide N/4 |
| FilterBankShort.ShortsOverlap | libfaad/filtbank.c:254-291 | where two neighbouring short blocks of a frame overlap, their aliased parts cancel and the samples come back |
| FilterBankShort.ShortLaysDown | libfaad/filtbank.c:254-291 | the eight short blocks of a frame together are the rise of LONG_STOP, the samples, and the fall of LONG_START |
| FilterBankShort.SwitchingReturns | libfaad/filtbank.c:207-315 | so every legal run that switches between the four sequences adds up to its samples from the second frame on |
| FilterBankSwitch.DecodeRun | libfaad/filtbank.c:159-329 | in place: ifilter_bank over any legal run of all four sequences, on coefficients that stand for samples, returns these samples from the second frame on, when five does not divide the transform lengths |
| FilterBankExact.NoErrors | libfaad/filtbank.c:207-405 | where two neighbouring frames of any legal sequences and power-complementary slopes give a sample and its mirror image back, the transforms made no error in either block there |
| FilterBankExact.SourceAliases | libfaad/filtbank.c:366-405 | for every frame there are samples that it windows to a block with any given aliases |
| FilterBankExact.RunFails | libfaad/filtbank.c:159-407 | when five divides N/4, every legal run of two frames or more fails on some samples, whatever its sequences and windows |
| FilterBankExact.ReconstructionIff | libfaad/filtbank.c:159-407 | every legal run of two frames or more, with any power-complementary windows, returns all samples if and only if five does not divide N/4 |
| FilterBankCodec.CodeRun | libfaad/filtbank.c:159-407 | calling filter_bank_ltp and ifilter_bank in turn on arrays computes that run, and so returns the samples exactly when the run does |
| FilterBankCodec.BankReturnsIff | libfaad/filtbank.c:159-407 | the same equivalence for the runs of a filter bank with its own windows: all samples come back for frames of 1024, not for frames of 960 |
| BitReader.LoadIsWord | libfaad/bits.c:40-68 | a word loaded near the end of the buffer is the word of the zero-extended stream, from bytes inside the buffer only |
| BitReader.ShowWordIs | libfaad/bits.h:111-121 | the shifts and masks of faad_showbits show the next bits of the two words |
| BitReader.Reader.constructor | libfaad/bits.c:71-116 | faad_initbits starts at bit 0 |
| BitReader.Reader.ShowBitsReads | libfaad/bits.h:111-121 | faad_showbits is the number formed by the next 1 to 32 bits of the stream |
| BitReader.Reader.FlushBitsEx | libfaad/bits.c:139-159 | moving up a word keeps the stream invariant and advances the position |
| BitReader.Reader.FlushBits | libfaad/bits.h:123-135 | advances the position by the bits flushed |
| BitReader.Reader.GetBits | libfaad/bits.h:138-156 | returns the next 0 to 32 bits and advances past them |
| BitReader.Reader.Get1Bit | libfaad/bits.h:158-176 | the same for one bit, with its own fast path |
| BitReader.Reader.ByteAlign | libfaad/bits.c:128-137 | moves to the next byte boundary and returns the bits skipped |
| BitReader.Reader.RewindBits | libfaad/bits.c:162-188 | back to bit 0 |
| BitReader.Reader.ResetBits | libfaad/bits.c:191-226 | to any bit position inside the buffer |
| BitReader.PerformAll | libfaad/bits.c:71-226 | every program of show, get, get-one, flush, align, rewind and reset gets the answers of the plain zero-extended stream, on every buffer |
| Latm.Replay | libfaad/decoder.c:425-432 | the saved copy of the reader replays the consumed bits into bytes, zero padded, up to the size cap |
| Latm.ReadProgramConfig | libfaad/decoder.c:146-220 | the channels counted from the lists of a program configuration, and where it ends; given up only for a comment of more than four bytes |
| Latm.ReadGASpecific | libfaad/decoder.c:222-251 | frame length, channels and end of the general audio part, for every object type |
| Latm.ReadSpecificFields | libfaad/decoder.c:296-419 | all branches: object type, rates, channels, explicit and backward-compatible SBR and PS, as the bits say; the size left is compared as an unsigned number |
| Latm.ReadAudioSpecificInfo | libfaad/decoder.c:271-433 | whichever configuration branches ran, p_extra holds exactly the bits consumed, and the reader stands after them |
| LatmSyntax.PackedIs | libfaad/decoder.c:425-432 | these bytes hold the bits in their order, padded with zeros, 64 of them at most |
| Latm.GetValue | libfaad/decoder.c:435-445 | the number formed by zero to three bytes |
| Latm.ReadOtherData | libfaad/decoder.c:544-555 | the escape loop of the other-data length ends, because bits past the end are zero, with the number its bytes form |
| Latm.ReadFrameLengthType | libfaad/decoder.c:513-539 | frame length type with its fields |
| Latm.ReadStreamMuxConfig | libfaad/decoder.c:447-564 | the whole configuration as the bits say, accepted with one program and one layer only |
| Latm.ReadEscape | libfaad/decoder.c:619-627 | a payload length is the sum of bytes up to the first that is not 255, and its loop ends for the same reason |
| Latm.ReadLengths | libfaad/decoder.c:606-640 | the announcements of all layers are consumed and layer zero's length is kept |
| Latm.Store | libfaad/decoder.c:656-661 | a payload byte stored in place leaves every bit still to be read as it was |
| Latm.CopyPayload | libfaad/decoder.c:641-663 | in place: the bytes written are the payload bytes of the original buffer, the reader stays ahead of the writer (8 * written + 1 <= bits consumed), and the loop gives up exactly when the buffer is too small |
| Latm.Parser.SubFrames | libfaad/decoder.c:610-709 | all subframes: the buffer begins with the concatenated original payloads and is otherwise unchanged |
| Latm.Parser.Configure | libfaad/decoder.c:571-598 | a new configuration replaces the old one, makes the parser ready if usable, and a reused one is not changed |
| Latm.Parser.LoasParse | libfaad/decoder.c:565-717 | the whole parser, in place: exactly when it returns nothing, what it returns otherwise, and what the buffer then holds |
| LatmEncode.ProgramBack | libfaad/decoder.c:146-220 | reading any encoded program configuration with a comment of up to four bytes counts one channel for each single element and each LFE and two for each pair, and ends where it ends, alignment included |
| LatmEncode.AscBack | libfaad/decoder.c:271-433 | encoding any AudioSpecificConfig, program configurations included, and reading it gives it back, with its channels and its end |
| LatmEncode.ExtensionBack | libfaad/decoder.c:408-423 | the backward-compatible SBR and PS extension, encoded behind a configuration, is read back |
| LatmEncode.SizedEnd | libfaad/decoder.c:408-423 | with an announced size the parser ends with the configuration exactly when that signals SBR itself, no size is announced, or the size covers it with less than 16 bits to spare; otherwise, and so for a size that is too small, it reads on |
| LatmEncode.SizeTooSmall | libfaad/decoder.c:408-423 | the input: 16 bits of two-channel AAC LC announced as 5 bits, of which 27 are read |
| LatmFrames.ValueBack | libfaad/decoder.c:435-445 | a number written in up to three bytes after their count is read back |
| LatmFrames.MuxBack | libfaad/decoder.c:447-564 | encoding any StreamMuxConfig of version 0 or 1, sizes, extensions and fill bits included, and reading it gives it back, with its end |
| LatmFrames.EscapeBack | libfaad/decoder.c:619-627 | any payload length, encoded, is read back |
| LatmFrames.SubFramesBack | libfaad/decoder.c:610-663 | for every frame length type encoded payloads of any number are what the subframes carry |
| LatmFrames.ParseEncoded | libfaad/decoder.c:565-717 | round trip in place: for any valid configuration, new or repeated, and payloads encoded at the start of a buffer the parser configures itself as described and leaves the joined payloads at the start of that buffer |
| HcrBits.MaskValue | libfaad/hcr.c:77-79 | the bit patterns used in the proofs are the constants of the code |
| HcrBits.ReverseWordIs | libfaad/hcr.c:89-98 | the five swap stages reverse all 32 bits |
| HcrBits.RewrevReverses | libfaad/hcr.c:105-141 | rewrev_bits reverses exactly the bits held, in one or two words |
| HcrBits.ConcatIsConcat | libfaad/hcr.c:145-175 | concat_bits puts the bits of a in front of those of b, for a b of neither 0 nor exactly 32 bits and at most 64 together |
| HcrBits.ShowBitsIs | libfaad/bits.h:338-360 | showbits_hcr shows the next bits held, then zeros |
| HcrBits.FlushBitsIs | libfaad/bits.h:362-372 | flushbits_hcr drops bits from the front, or everything and reports it |
| HcrDecode.TwoStepCode | libfaad/huffman.c:413-489 | two-step tables: the entry found, or failure with nothing left |
| HcrDecode.TreeCode | libfaad/huffman.c:491-525 | binary tables: the leaf the bits lead to, or failure with nothing left |
| HcrDecode.EscapeCode | libfaad/huffman.c:543-571 | escape sequences: prefix, offset and sign of a value of magnitude 16, 16-bit result |
| HcrDecode.SpectralData2 | libfaad/huffman.c:403-579 | returns -1, with nothing left, exactly when the bits end inside the codeword; otherwise takes that codeword from the front and returns how many bits are left |
| HcrDecode.DecodeTakes | libfaad/huffman.c:403-579 | a complete codeword takes at least one bit and no more than are held |
| HcrDecode.DecodeExtends | libfaad/huffman.c:403-579 | with prefix-free tables a complete codeword decodes the same whatever bits follow |
| HcrCode.TableRead | libfaad/huffman.c:413-525 | the table step finds the entry whose code the bits begin with, in tables of either kind |
| HcrCode.SignsRead | libfaad/huffman.c:528-540 | one sign bit for each value that is not zero, set exactly for the negative ones, is read back |
| HcrCode.EscapeRead | libfaad/huffman.c:543-571 | the prefix and offset written for a value of magnitude 16 or more give it back in sixteen bits |
| HcrCode.WrittenIs | libfaad/huffman.c:403-579 | a codeword written from table code, signs and escapes decodes to exactly its values, whatever follows it |
| HcrCode.AboveLimit | libfaad/huffman.c:305-324 | a codeword of a virtual codebook with a value above its limit decodes to two zeros |
| HcrCode.ReadWritten | libfaad/huffman.c:403-579 | huffman_spectral_data_2 on a written codeword returns its values and leaves what followed it |
| HcrCode.DecodedIsWritten | libfaad/huffman.c:403-579 | conversely every codeword that is accepted is one that the writer puts down, for the values that come out |
| HcrMerge.ReadSegment | libfaad/hcr.c:192-204 | read_segment holds the next bits of the stream, in one or two words |
| HcrMerge.MergeShort | libfaad/hcr.c:311-329 | merging the trailing bits: reversed, in front of the 32 bits or less that were left |
| HcrMerge.MergeIff | libfaad/hcr.c:318-322 | the merge is right for all contents of the last segment if and only if at most 32 bits were left in it |
| HcrSegments.PrioritySegment | libfaad/hcr.c:298-305 | one segment of step 1: the values of its priority codeword, and what is left of it, reversed |
| HcrSegments.TrailingBits | libfaad/hcr.c:311-329 | the bits behind the last segment join it, reversed, in front of what it still holds, and when they do not |
| HcrSegments.ReadSegments | libfaad/hcr.c:296-347 | step 1, over the codewords in the order visited: as many segments as fit, each without its priority codeword and reversed, the trailing bits in the last one, and the other codewords densely from index 0 |
| HcrSort.PreSort | libfaad/hcr.c:266-292 | the six nested loops visit codewords in this order |
| HcrSort.TablePasses | libfaad/hcr.c:57-68 | every spectral codebook is taken up by exactly one pass of either table |
| HcrSort.VisitedOnce | libfaad/hcr.c:266-338 | every codeword of a spectral codebook is visited exactly once, and nothing else is |
| HcrOrder.VisitOrder | libfaad/hcr.c:266-338 | of any two codewords visited the first one has the earlier pass, or in the same pass the lower band, then the lower block of four lines, then the lower group, then the lower number |
| HcrSort.LineOnce | libfaad/hcr.c:284-292 | every spectral line of a band belongs to exactly one of these codewords |
| HcrSort.DecodeFrame | libfaad/hcr.c:214-421 | the whole function from the section data: its error returns, and the values of every codeword in the order visited |
| HcrSchedule.PairsDistinct | libfaad/hcr.c:361-368 | within a trial different codewords meet different segments |
| HcrSchedule.MeetOnce | libfaad/hcr.c:357-368 | over the trials of a set a codeword meets each segment exactly once |
| HcrSchedule.OffersUntil | libfaad/hcr.c:354-368 | at every point of the three loops the offers made are exactly those due, each once, all within the stored range |
| HcrSchedule.WholeEachOnce | libfaad/hcr.c:354-393 | over the whole run every stored codeword is offered every segment exactly once |
| HcrSchedule.StepConserves | libfaad/hcr.c:370-388 | an offer loses no bits except those of the codeword it completes; turning the segments loses none |
| HcrSchedule.RunConserves | libfaad/hcr.c:354-393 | over any run bits disappear only as part of completed codewords |
| Hcr.Offer | libfaad/hcr.c:370-388 | one offer: a failed decode empties the segment and the codeword then holds its old bits followed by the segment's; a successful one takes the codeword from the front of these |
| Hcr.ReverseAll | libfaad/hcr.c:389-392 | every segment is reversed |
| Hcr.Trial | libfaad/hcr.c:360-388 | the innermost loop makes the offers of its trial in order and stops at the last stored codeword |
| Hcr.DecodeNonPriority | libfaad/hcr.c:354-393 | step 2 in place is the whole schedule on plain bit strings, exactly when every offer can be followed by the arithmetic of the code |
| HcrWrite.TooShort | libfaad/huffman.c:403-579 | a proper prefix of a codeword does not decode |
| HcrWrite.RunRead | libfaad/hcr.c:354-393 | at every event the reader holds, of each codeword, exactly the bits the writer has put down so far |
| HcrWrite.AllWritten | libfaad/hcr.c:354-393 | if there is room for all bits the schedule leaves none unwritten |
| HcrWrite.RoundTrip | libfaad/hcr.c:354-393 | whatever codewords are written into segments in the order of the standard, step 2 decodes every one of them to its values |
| HcrWrite.FitIff | libfaad/hcr.c:145-175 | whether the 64-bit arithmetic can follow a run is decided by the lengths of codewords and segments |
| HcrWrite.ShortFits | libfaad/hcr.c:145-175 | with at most 31 bits of room in a segment and 33 bits in a codeword it always can |
| HcrFrame.ReorderedSpectralData | libfaad/hcr.c:214-421 | a whole frame: the error returns exactly, and the values of all codewords |
| HcrFrame.FrameConserves | libfaad/hcr.c:214-421 | every bit of a frame belongs to a priority codeword, to a codeword completed in step 2, or is still held in the end |
| HcrFrame.ValuesRead | libfaad/hcr.c:214-421 | the values decoded from an encoded frame are those of its codewords, in visit order |
| HcrFrame.FollowedIff | libfaad/hcr.c:214-421 | an encoded frame can be followed exactly when its lengths say so |
| HcrFrame.DecodeEncoded | libfaad/hcr.c:214-421 | round trip in one call: a frame written as the standard reorders it is decoded to all its values, exactly when the lengths of its segments and codewords let the arithmetic follow, and always for short ones |
| Kernel.ExtractIs | gst-plugin-vfmcap/vdin1_amly_to_p010_spv.h:686-811 | for every byte offset the shifts over two words and decode_pair give the samples of the five bytes at that offset; the third word never matters |
| Kernel.ReadPairGlobal | gst-plugin-vfmcap/vdin1_amly_to_p010_spv.h:813-902 | read_pair_global yields the pair asked for |
| Kernel.LoadTile | gst-plugin-vfmcap/vdin1_amly_to_p010_spv.h:642-684 | one invocation loads every 128th word of the tile from its own number on |
| Kernel.LoadAll | gst-plugin-vfmcap/vdin1_amly_to_p010_spv.h:642-684 | all invocations, in any order, load the whole tile |
| Kernel.TileSuffices | gst-plugin-vfmcap/vdin1_amly_to_p010_spv.h:294-641 | no tile needs more than 163 words, and the widest needs exactly 163 |
| Kernel.ExtractPair | gst-plugin-vfmcap/vdin1_amly_to_p010_spv.h:686-778 | extraction from the shared tile agrees with the global read |
| Kernel.SamplesAreTenBit | gst-plugin-vfmcap/vdin1_amly_to_p010_spv.h:780-811 | the four samples of a pair are ten-bit numbers |
| Kernel.BytesAre | gst-plugin-vfmcap/vdin1_amly_to_p010_spv.h:686-811 | a word of the input is its four bytes, the lowest one first |
| Kernel.FieldsAre | gst-plugin-vfmcap/vdin1_amly_to_p010_spv.h:780-811 | the five bytes of a pair are forty bits, lowest byte first, with U, the first luma, V and the second luma from the bottom |
| Kernel.LumaHolds | gst-plugin-vfmcap/vdin1_amly_to_p010_spv.h:904-912 | a luma word holds both luma samples of its pair in the top ten bits of its halves, the first one low |
| Kernel.ChromaHolds | gst-plugin-vfmcap/vdin1_amly_to_p010_spv.h:632-640 | a chroma word holds the rounded mean of two U samples in the top ten bits of its low half and that of two V samples in its high half |
| Kernel.MeanIs | gst-plugin-vfmcap/vdin1_amly_to_p010_spv.h:294-641 | the chroma average is rounded half up and stays within ten bits |
| Kernel.Convert | gst-plugin-vfmcap/vdin1_amly_to_p010_spv.h:294-641 | one invocation after the barrier writes its luma word and, on even rows with a following row, its chroma word, and disturbs nothing that is finished |
| Kernel.OneWriter | gst-plugin-vfmcap/vdin1_amly_to_p010_spv.h:294-641 | every luma word and every chroma word has one writing invocation |
| Kernel.Dispatch | gst-plugin-vfmcap/gst_streambox_src.c:816-825 | for every even width, every height and every order of groups and invocations each luma word holds the two samples of its pair, and word c of chroma row r the means of column c in the picture rows 2r and 2r + 1 |
| InputCache.Cache.Find | gst-plugin-vfmcap/gst_streambox_src.c:400-409 | the search finds the key if and only if the map has it |
| InputCache.Cache.Oldest | gst-plugin-vfmcap/gst_streambox_src.c:415-422 | the slot chosen was used no later than any other |
| InputCache.Cache.Get | gst-plugin-vfmcap/gst_streambox_src.c:397-447 | against a plain map of (fd, size): a hit changes no import, a miss adds the key, a full cache evicts a least recently used entry and nothing else, a failed import adds nothing |
| InputCache.Session | gst-plugin-vfmcap/gst_streambox_src.c:397-447 | with at most eight distinct keys and no failed import no import is ever destroyed in a session |
| CapturePath.PathB.PoolAcquire | gst-plugin-vfmcap/gst_streambox_src.c:2789-2803 | the lowest free output buffer changes owner, or none is free |
| CapturePath.PathB.Downstream | gst-plugin-vfmcap/gst_streambox_src.c:2706-2719 | releases from downstream keep the ownership invariant at any point of a call |
| CapturePath.PathB.SubmitAsync | gst-plugin-vfmcap/gst_streambox_src.c:722-869 | submission puts the work on the current slot, or fails and changes nothing |
| CapturePath.PathB.SavePending | gst-plugin-vfmcap/gst_streambox_src.c:3396-3404 | saving the asynchronous state and flipping the slot moves the buffers from the call to the GPU |
| CapturePath.PathB.WaitAsync | gst-plugin-vfmcap/gst_streambox_src.c:877-900 | the wait takes output buffer, capture buffer and frame back from the other slot |
| CapturePath.PathB.CleanExit | gst-plugin-vfmcap/gst_streambox_src.c:3045-3085 | draining requeues the capture buffer, frees the output buffer and drops the frame |
| CapturePath.PathB.PollLoop | gst-plugin-vfmcap/gst_streambox_src.c:2972-3043 | where the loop leaves, by its answers: the first that is not an interruption, a retry, a frame without a queued buffer or one of fewer than five timeouts decides, and each kind of answer has its own exit |
| CapturePath.PathB.Prime | gst-plugin-vfmcap/gst_streambox_src.c:3160-3423 | the priming call, by the answers: OK exactly when there is an output buffer, conversion and wrapping succeed and the second loop is decided, which frames are then delivered, pending or dropped |
| CapturePath.PathB.Steady | gst-plugin-vfmcap/gst_streambox_src.c:3424-3650 | the steady call, by the answers: OK exactly when the pending frame can be wrapped; the current one becomes pending when it can be submitted and is dropped otherwise |
| CapturePath.PathB.Create | gst-plugin-vfmcap/gst_streambox_src.c:2943-3750 | one call, by the answers: end of stream with everything drained, flushing and failure with nothing changed, or a frame taken; which frame is delivered, which becomes pending, which are dropped; every buffer keeps exactly one owner |
| CapturePath.PathB.Stop | gst-plugin-vfmcap/gst_streambox_src.c:2549-2584 | stopping drains: every frame was delivered or dropped and every capture buffer is with the driver |
| CapturePath.Session | gst-plugin-vfmcap/gst_streambox_src.c:2943-3750 | any number of calls: frames go downstream in dequeue order, none twice, none lost, one for each call that returns OK |
| AdpcmIma.DecodeNibbles | libadpcm/adpcm_decode.c:221-276 | in place: every sample of both channels is the recurrence of its channel on its own codes |
| AdpcmIma.UnpackMono | libadpcm/adpcm_decode.c:300-304 | nibbles of one channel in order, low nibble first |
| AdpcmIma.UnpackStereo | libadpcm/adpcm_decode.c:305-330 | alternating groups of four bytes land interleaved: sample k of channel c is the nibble the format assigns to it |
| AdpcmIma.ImaDecodeBlock | libadpcm/adpcm_decode.c:278-338 | the whole first decoder |
| AdpcmIma.DecodeImaBlock | libadpcm/adpcm_decode.c:645-701 | the whole second decoder for any amount of data, and its error returns for a wrong sample count and a damaged preamble |
| AdpcmIma.DiffsClose | libadpcm/adpcm_decode.c:251-260 | for every step and code the two difference formulas differ by 0, 1 or 2 |
| AdpcmIma.SameIndices | libadpcm/adpcm_decode.c:245-246 | both decoders follow the same step indices, within 0..88 |
| AdpcmIma.SamplesClose | libadpcm/adpcm_decode.c:244-270 | their k-th samples differ by at most 2k |
| AdpcmIma.DecodersClose | libadpcm/adpcm_decode.c:645-701 | the same for the arrays the two decoders leave for one block, which read the same nibble for the same sample and channel |
| AdpcmIma.CodeMoves | libadpcm/adpcm_decode.c:247-268 | each code moves the sample by (2m + 1)/8 of the step, m being its low three bits, up for codes below 8 and down from 8 on, saturated to 16 bits; the two decoders round it once or part by part |
| AdpcmIma.IndexMoves | libadpcm/adpcm_decode.c:245-246 | the step index falls by one for m below 4 and rises by 2, 4, 6 or 8 otherwise, within 0..88 |
| AdpcmIma.BlockBack | libadpcm/adpcm_decode.c:278-338 | in a block packed from first samples, step indices and codes, mono or stereo, both decoders find exactly these |
| AdpcmMs.Decode | libadpcm/adpcm_decode.c:455-486 | one turn of the loop: adaptation with wrap-around and floor, prediction, clamping |
| AdpcmMs.Recurrence | libadpcm/adpcm_decode.c:455-486 | each sample depends on the two before it in its own channel; samples are 16-bit and adaptation steps in 16..32767 after every update |
| AdpcmMs.PredictedIs | libadpcm/adpcm_decode.c:468-477 | what each of the seven predictors makes of the last two samples |
| AdpcmMs.EncodedBack | libadpcm/adpcm_decode.c:455-486 | samples quantised against this recurrence decode to within half a step wherever the codes reach |
| AdpcmMs.BlockBack | libadpcm/adpcm_decode.c:357-521 | every sample that comes out of a packed block is that of its own channel's predictor, start and codes |
| AdpcmMs.Shift | libadpcm/adpcm_decode.c:489-508 | the shifting registers always hold the next samples to come out |
| AdpcmMs.DecodeBlock | libadpcm/adpcm_decode.c:357-521 | every output sample is the recurrence of its channel, and 2N - 1 + 2 * channels samples are returned for N > 0 data bytes |
| Stereo.MsDecode | libfaad/ms.c:39-71 | in place: sum and difference in exactly the selected bins, everything else unchanged |
| Stereo.IsDecode | libfaad/is.c:49-106 | in place: the right spectrum of intensity bands is the scaled and signed left one, everything else and the left spectrum unchanged; prediction is off in exactly the bands that have intensity stereo |
| Stereo.Unique | libfaad/ms.c:49-70 | a bin lies in at most one band of one window |
| Stereo.Commute | libfaad/is.c:63-105 | the two stages commute |
| Stereo.MsTwice | libfaad/ms.c:49-70 | M/S twice doubles exactly the selected bins |
| Stereo.IsTwice | libfaad/is.c:63-105 | intensity twice is intensity once |
| Stereo.FourCases | libfaad/is.c:63-105 | bin by bin: codebook 15 scales the left bin, 14 negates it too, and a set mask turns the sign of either; other codebooks leave the right bin alone |
| Stereo.SumAndDifference | libfaad/ms.c:49-70 | bin by bin: when sum and difference are formed and when nothing happens |

## Left out

- Rounding of `float`, and the approximate constants: the root of unity, the window slopes and the tables are exact reals. `mdct.c`'s table is taken to have squared magnitude exactly 2/N.
- `FilterBankRuns.PerfectReconstruction`: runs with eight-short frames, which `filter_bank_ltp` does not produce; `FilterBankSwitch.DecodeRun` covers them with coefficients that stand for the samples.
- `MdctFormula.ImdctFormula`: the unit of angle is a complex number of magnitude one whose 2N-th power is the imaginary unit, and the table `sincos` is taken to hold its powers exactly.
- `FilterBank.Bank.constructor`: the numbers in the sine and KBD tables are parameters, and results about reconstruction ask that they are power-complementary; the three transforms share no work array with each other's tables, as `faad_mdct_init` allocates them.
- `CfftInfo.Info.constructor`: lengths with a prime factor above five get factors and a table, but no pass exists for such a factor, so the two transforms are only described as the passes that run.
- The pairs of source functions and loops that differ in sign only (`passf2pos` and `passf2neg`, `cfftf1pos` and `cfftf1neg`) are one method with a sign.
- Low-delay frames other than ONLY_LONG, whose windows do not fit the buffers.
- `Latm.Parser.LoasParse`: bit reads wider than 32 bits are not followed; it answers Unmodelled only when the program configuration comment (libfaad/decoder.c:217-218) has more than four bytes or more than 32 bits are left of an announced size (libfaad/decoder.c:509-511), and not always then. The reader's `faad_getbitbuffer`, the reversed reader and error counters are absent too.
- `BitReader.Reader.ResetBits`: only targets inside the buffer; for others the code subtracts past zero and reads outside it.
- `Latm.ReadStreamMuxConfig`: lengths are unbounded integers, so the overflow of the other-data length is not seen.
- `LatmFrames.ParseEncoded`: encoded comments have at most four bytes and sizes leave at most 32 fill bits, the extension is that of SBR and PS, and an other-data length of version 1 has at least one byte.
- Without same-time framing the code takes no payload, and the model only says so.
- `HcrDecode.SpectralData2`: spectral cells written before a decode fails are not tracked; values are returned instead of written to the spectrum.
- `HcrSegments.ReadSegments`: takes the codewords as a list in visit order; `HcrSort.PreSort` makes the list first, where the code reads segments inside the loops.
- `HcrSort.DecodeFrame`: at most 512 codewords, sections of a group that do not overlap, and band widths as `specrec.c` sets them up.
- `HcrFrame.ReorderedSpectralData`: the outcome is Undefined for a merge over 32 bits, for more than 63 bits held together, and for a segment of exactly 32 bits that a codeword with bits is joined to, where C's shift by 32 is undefined. The two local arrays of 512 entries have the length in use.
- `Hcr.Offer`: the last two conditions are its precondition.
- `HcrFrame.DecodeEncoded`: an encoded frame whose codewords leave room has zero bits there.
- `Kernel.Dispatch`: byte offsets fit 32 bits; words past the end of the input are arbitrary; invocations of a group run one after another between barriers, in any order.
- `CapturePath.PathB.Create`: the 8-bit zero-copy branch, failing fence waits and requeues, STREAMOFF, and an invalid buffer index from the driver are left out. `queued` records what the driver holds; the source's flag of that name is not set again by the drain in `stop_path_b`.
- `CapturePath.PathB.Stop`: STREAMOFF and a failing wait in the drain.
- `CapturePath.PathB.PollLoop`: which buffers are queued does not change while the loop waits, and a ready frame without a queued buffer counts as a retry.
- `CapturePath.PathB.SubmitFrame`: one method for the two places that acquire and submit; clearing the pending flag there writes a value it already has while priming.
- `CapturePath.Session`: no buffer outlives the session, and a call whose answers run out counts as not returned.
- `InputCache.Cache.Get`: `last_used` counters do not reach the largest 64-bit number.
- `AdpcmIma.ImaDecodeBlock`: bytes are unsigned. A step index above 88 in a preamble reads outside the step table and is excluded, and so are stereo blocks that end inside a group of eight bytes, whose samples would be stored behind the output.
- `AdpcmIma.DecodeImaBlock`: bytes are unsigned, and the data read and the samples written are there.
- `AdpcmMs.DecodeBlock`: predictor numbers of seven and more, which the code does not refuse, read outside the coefficient tables and are excluded; so are headers that the block does not contain.
- `Stereo.IsDecode`: the power of 0.5 is a function parameter. Both stages need bands in ascending order that end inside the spectrum.
- `libfaad/drm_dec.c`, `libfaad/ic_predict.c`, `libfaad/lt_predict.c`, SBR, PS, TNS, fixed-point arithmetic, A-law and mu-law, sysfs and GStreamer plumbing are not part of this model.
