# stm32_bare_lib core, modelled in Dafny

This project models the integer logic of the bare-metal STM32 "Blue Pill" library and proves properties about it:

- **Reference kernels.** `ReferenceConv` is a quantized NHWC 2-D convolution in SAME or VALID padding. `ReferenceEightBitIntGemm` is a quantized 8-bit matrix multiply. Each kernel is a pure specification function plus an imperative loop method proved equal to it. The benchmarks' hand-computed known answers are proved as lemmas.
- **String utilities.** There are two diverging copies, in `source/strings.c` and `include/strings.h`. They cover in-place reversal, digit generation in a base, sign handling, bounded append and bounded copy. Each is a method over a `char` array, proved against specification functions on strings.
- **Audio volume.** The statistic from the LED-from-microphone example is a truncating mean, then the mean absolute deviation.
- **DMA interrupt dispatch.** The handler is shared by two examples. Each handler is a sequential step on a class holding the counters.
- **Register updates.** `SetGpioMode`, `EnableNvic`, `LedInit`, `LedOn` and `LedOff` are read-modify-writes on 32-bit register words. The GPIO, RCC and DMA blocks are classes with plain `bv32` fields instead of volatile memory.
- **Startup code.** This covers the `.data` copy, the `.bss` fill with `0xDEADBEEF` and the `HardFault` diagnostic log with its CFSR priority chain. It also covers the layout of the interrupt vector table.

Modules follow the source files:

| module | source |
|---|---|
| `Conv` | examples/conv_benchmark/conv_benchmark_main.c |
| `Gemm` | examples/matmul_benchmark/matmul_benchmark_main.c |
| `Strings` | source/strings.c |
| `StringsHeader` | include/strings.h |
| `LedFromMic` | examples/led_from_mic/led_from_mic_main.c |
| `AdcDma` | examples/adc_dma/adc_dma_main.c |
| `Adc` | include/adc.h |
| `Led` | include/led.h |
| `Startup` | source/startup.c |

The shared modules are:

- `FixedPoint`: C's truncating `/`, arithmetic `>>`, the rounding term, the rescale step, the uint8 store and the clamp.
- `Layout`: the row-major 4-index offset used for NHWC and filter layouts.
- `CString`: NUL-terminated strings, `Reverse`, digit strings in a base and their value, and the int32 text.
- `DmaDispatch`: the flag priority and the counter bump that both DMA handlers share.
- `Registers`: register words as class fields, and the DMA channel 1 flag bits.

The model makes these choices about C semantics:

- `>>` on a negative `int32_t` is floor division by a power of two, which is what GCC does on ARM.
- `/` truncates toward zero (`FixedPoint.TruncDiv`).
- Storing an `int32_t` into a `uint8_t` keeps the low 8 bits (`FixedPoint.WrapToByte`).
- `int32_t` accumulators are mathematical integers. Their overflow is excluded by the preconditions `Conv.Int32Safe` and `Gemm.Int32Safe`, and for the sample total by `Sum(...) <= Int32Max`. The `uint32_t` deviation total is reduced `% 0x1_0000_0000` explicitly, and the model proves that this reduction never changes the value for a half buffer.
- Pointers into caller buffers become an array plus an index. Each string function receives, as a ghost parameter, the string its buffer holds (`CString.Holds`).

## Model

| member | source | states |
|---|---|---|
| FixedPoint.TruncDiv | examples/conv_benchmark/conv_benchmark_main.c:58-70 | the quotient of C's `/`: the remainder has the dividend's sign and is smaller than the divisor in magnitude |
| FixedPoint.ShiftRight | examples/conv_benchmark/conv_benchmark_main.c:140-142 | arithmetic `x >> s` is the floor of x / 2^s: `r*2^s <= x < (r+1)*2^s` |
| FixedPoint.RescaleRoundsHalfUp | examples/conv_benchmark/conv_benchmark_main.c:37-42 | with the rounding term `shift < 1 ? 0 : 1 << (shift-1)`, the rescale is exact for shift 0 and otherwise the nearest multiple of 2^shift, rounding halves up |
| FixedPoint.RescaleHalfwayExamples | examples/conv_benchmark/conv_benchmark_main.c:37-42 | halves round toward +infinity on both sides of zero: 1.5 gives 2, -1.5 gives -1, 1.25 gives 1, 1.5 (as 6/4) gives 2 |
| FixedPoint.WrapToByte | examples/conv_benchmark/conv_benchmark_main.c:143-145 | the byte stored from an int is congruent to it modulo 256 |
| FixedPoint.Int32OfWord | source/startup.c:114-120 | a 32-bit word read as `int32_t` is the two's-complement value: the word itself below 2^31, the word minus 2^32 from there on |
| FixedPoint.ClampToByte | examples/matmul_benchmark/matmul_benchmark_main.c:71-76 | values in 0..255 are kept, larger ones become 255, negative ones become 0 |
| Layout.Offset4Below | examples/conv_benchmark/conv_benchmark_main.c:114-118 | an in-range 4-index NHWC offset lies inside the buffer of the product of the four dimensions |
| Layout.Offset4Monotone | examples/conv_benchmark/conv_benchmark_main.c:73-80 | the offset increases strictly in lexicographic order of the indices, which is the order the loops visit them |
| Layout.Offset4Injective | examples/conv_benchmark/conv_benchmark_main.c:143-145 | different in-range index tuples have different offsets |
| Layout.Decode4OfOffset4 | examples/conv_benchmark/conv_benchmark_main.c:143-145 | decoding an offset recovers the index tuple it came from |
| Layout.Decode4Inverse | examples/conv_benchmark/conv_benchmark_main.c:143-145 | every offset inside the buffer is the offset of exactly the tuple it decodes to, with in-range indices |
| Conv.ConvResultAt | examples/conv_benchmark/conv_benchmark_main.c:100-145 | output cell (b, y, x, c) sits at `((b*H+y)*W+x)*C+c` and holds the rescaled, 8-bit-truncated sum over all filter taps of `(in - in_off)*(f - f_off)` |
| Conv.OutIndexInjective | examples/conv_benchmark/conv_benchmark_main.c:143-145 | two different output cells are stored at different positions, so each cell is written once |
| Conv.ValidOriginOneBeyondSame | examples/conv_benchmark/conv_benchmark_main.c:58-70 | the VALID window origin offset equals the SAME one or exceeds it by exactly one |
| Conv.SameStride1Centres | examples/conv_benchmark/conv_benchmark_main.c:44-70 | SAME with stride 1 and same-sized output starts each window (f-1)/2 samples before the output position |
| Conv.ValidReadsInside | examples/conv_benchmark/conv_benchmark_main.c:48-53 | in VALID mode, when all windows fit the input, every tap coordinate is inside the image |
| Conv.ValidOversizedOutputStartsOutside | examples/conv_benchmark/conv_benchmark_main.c:51-53 | in VALID mode, when the windows overhang the input, the first tap of the first output lies outside the image |
| Conv.OutsideTapIsZero | examples/conv_benchmark/conv_benchmark_main.c:110-125 | a tap outside the image contributes 0, whatever the input and filter offsets are |
| Conv.SmallExpectedTruncates | examples/conv_benchmark/conv_benchmark_main.c:194-201 | the test's exact totals, reduced modulo 256, are the bytes its `uint8_t` expected array holds (312, 357 and 261 become 56, 101 and 5) |
| Conv.SmallConvKnownAnswer | examples/conv_benchmark/conv_benchmark_main.c:152-217 | for the 3x4 image 1..12, the 3x3 filter, SAME, stride 1, no offsets, mult 1 and shift 0, the whole output equals the test's expected bytes |
| Conv.CellTotal | examples/conv_benchmark/conv_benchmark_main.c:100-137 | the three inner loops leave in `total` the full window sum of the output cell |
| Conv.ConvPixel | examples/conv_benchmark/conv_benchmark_main.c:80-146 | the output-channel loop stores the specified value of every channel of one pixel and leaves every later position alone |
| Conv.ReferenceConv | examples/conv_benchmark/conv_benchmark_main.c:25-150 | the first OutputSize bytes of the output become the specified convolution, later bytes are kept, and input and filter are unchanged |
| Gemm.OperandIndicesInBounds | examples/matmul_benchmark/matmul_benchmark_main.c:25-42 | with the transpose-selected strides, every A index (i, l) and B index (l, j) the loops read lies inside its buffer |
| Gemm.CellIndexInBounds | examples/matmul_benchmark/matmul_benchmark_main.c:43-51 | every C index `i*c_i_stride + j*c_j_stride` the loops write lies inside the C buffer |
| Gemm.CIndexInjective | examples/matmul_benchmark/matmul_benchmark_main.c:77-78 | when the C cells are laid out disjointly, different (i, j) are stored at different positions |
| Gemm.GemmResultAt | examples/matmul_benchmark/matmul_benchmark_main.c:56-78 | after the loops, cell (i, j) of C holds the clamped, rounded rescale of `sum_l (a + a_off)*(b + b_off)` |
| Gemm.GemmResultElsewhere | examples/matmul_benchmark/matmul_benchmark_main.c:56-80 | positions of C that are no cell of the m x n result keep their old bytes |
| Gemm.CellValueSaturates | examples/matmul_benchmark/matmul_benchmark_main.c:69-78 | the stored byte is 255 above 255, 0 below 0 and the raw value otherwise |
| Gemm.DotNonnegativeForZeroOffsets | examples/matmul_benchmark/matmul_benchmark_main.c:58-68 | with both zero points 0 the accumulator is never negative |
| Gemm.SmallGemmKnownAnswer | examples/matmul_benchmark/matmul_benchmark_main.c:83-123 | for A = [[1,2,3],[4,5,6]] and B = [[7..10],[11..14],[15..18]] with no transposes, offsets 0, mult 1 and shift 0, C is 74, 80, 86, 92, 173, 188, 203, 218 |
| Gemm.CellTotal | examples/matmul_benchmark/matmul_benchmark_main.c:58-68 | the `l` loop leaves the dot product of row i of A and column j of B, offsets added, in `total` |
| Gemm.StoreCell | examples/matmul_benchmark/matmul_benchmark_main.c:58-78 | one (i, j) step changes C at exactly its cell index, to the specified byte |
| Gemm.StoreAllCells | examples/matmul_benchmark/matmul_benchmark_main.c:56-80 | the j/i loops turn C into the specified result |
| Gemm.ReferenceEightBitIntGemm | examples/matmul_benchmark/matmul_benchmark_main.c:20-81 | C becomes the specified result. A and B are unchanged |
| CString.StrLen | source/strings.c:62-65 | the scan stops at the first NUL |
| CString.CStrOfTerminated | source/strings.c:61-65 | a buffer holding a string followed by a NUL reads back as exactly that string |
| CString.ReverseInvolution | source/strings.c:17-27 | reversing twice gives back the original |
| CString.ReverseAppend | source/strings.c:17-27 | reversal turns `s + t` into `rev t + rev s` |
| CString.DigitCharValue | source/strings.c:33-39 | the character written for a digit reads back as that digit |
| CString.LeastFirstReversed | source/strings.c:32-44 | the digits emitted lowest first, reversed, are the digits in reading order |
| CString.DigitsRoundTrip | source/strings.c:29-45 | the digit string of i read back in the same base is i |
| CString.DigitsCanonical | source/strings.c:32-42 | every character is a digit of the base, and the first is '0' exactly when i is 0: the result is never empty and has no leading zero |
| CString.DigitsLength | source/strings.c:32-42 | i is below base^len and, when it is not 0, at least base^(len-1) |
| CString.UInt32DigitsFit | include/strings.h:44-45 | the digits of a uint32 and their NUL fit a `kFastToBufferSize` buffer exactly when the base is at least 3 or bit 31 is clear |
| CString.UInt32DigitsAtMost32 | source/strings.c:29-45 | a uint32 takes at most 32 digits in any base from 2 to 40, so 33 chars always hold it with its NUL |
| CString.Base2TopBitOverflows | source/strings.c:83-85 | 2^31 in base 2 is 32 digits, so with its NUL it needs 33 chars, one more than the 32-char scratch buffer |
| CString.Int32TextRoundTrip | source/strings.c:48-56 | the signed text reads back as the number |
| CString.Int32TextFits | include/strings.h:44-55 | every int32 text has at most 11 characters and fits the 32-byte buffer with its NUL |
| CString.Int32MinText | source/strings.c:49-56 | INT32_MIN prints as "-2147483648" |
| CString.NegatedUInt32IsMagnitude | source/strings.c:50-53 | the unsigned negation `u = -u` of a negative int32 is its magnitude |
| Strings.ReversedRangeSlices | source/strings.c:17-27 | the reversed range holds the reverse of its old contents and both sides are kept |
| Strings.ReverseStringInPlace | source/strings.c:17-27 | the buffer becomes the old one with [start, end) reversed, and the result is start; include/strings.h:21-30 has the identical loop and is modelled by this member too |
| Strings.DigitCharacter | source/strings.c:33-39 | digits below 10 become '0'.., the rest 'a'.. |
| Strings.WriteLeastFirst | source/strings.c:32-42 | the do-while writes the digits lowest first from the start position, leaves the rest alone and stops after the last digit |
| Strings.FastUInt32ToBufferLeft | source/strings.c:29-45 | the buffer holds the base-`base` digits of i in reading order, then a NUL, which the result points at, and nothing else changes |
| Strings.FastInt32ToBufferLeft | source/strings.c:48-56 | the buffer holds the signed decimal text followed by a NUL, and the result points at that NUL |
| Strings.CatTextFits | source/strings.c:61-73 | an append keeps the old string, adds a prefix of `to_append` and stays below main_max_length |
| Strings.CatTextMaximal | source/strings.c:66-71 | all of `to_append` is appended when it fits, otherwise the string grows to exactly main_max_length - 1 |
| Strings.CatTextStops | source/strings.c:66-71 | the copy loop's exit condition matches the end of the specified text |
| Strings.StrCatStr | source/strings.c:61-73 | `main` holds the specified appended text followed by a NUL, and the bytes after that NUL are kept; only `main` is written |
| Strings.StrCatInt32 | source/strings.c:75-80 | appends the signed decimal text of the number as StrCatStr would |
| Strings.StrCatUInt32 | source/strings.c:82-87 | appends the base-`base` digits, given that they fit the 32-byte scratch buffer |
| Strings.StrCatUInt32WideScratch | source/strings.c:82-87 | with a 33-char scratch buffer the append of the base-`base` digits works for every uint32 and every base |
| Strings.CopyTextFits | source/strings.c:89-98 | the copy is a prefix of the source shorter than main_max_length, and the whole source when that fits |
| Strings.StrCpy | source/strings.c:89-98 | `main` holds the specified copy followed by a NUL, and the bytes after that NUL are kept |
| StringsHeader.DecimalStep | include/strings.h:35-38 | `(i % 10) + '0'` is the lowest decimal digit, and one pass emits it |
| StringsHeader.WriteDecimalLeastFirst | include/strings.h:34-38 | the do-while writes the decimal digits lowest first |
| StringsHeader.FastUInt32ToBufferLeft | include/strings.h:32-42 | the buffer holds the decimal digits of i then a NUL, which the result points at |
| StringsHeader.DecimalFits | include/strings.h:44-45 | any uint32 needs at most 10 decimal digits, so the scratch buffer always suffices |
| StringsHeader.FastInt32ToBufferLeft | include/strings.h:47-55 | the buffer holds the signed decimal text then a NUL |
| StringsHeader.HeaderCatTextShifted | include/strings.h:59-72 | the header's bound is the source file's bound moved along by the old length, and the two agree on an empty string |
| StringsHeader.HeaderCatTextAppends | include/strings.h:59-72 | the old string is kept, a prefix of `to_append` follows, and at most main_max_length - 1 characters are added, all of them when they fit |
| StringsHeader.HeaderCatTextOverflows | include/strings.h:65-71 | "abc" in a buffer of length 4 becomes "abcxyz": the header's version can outgrow main_max_length |
| StringsHeader.StrCatStr | include/strings.h:59-72 | `main` holds the header's appended text then a NUL, and the bytes after that NUL are kept |
| StringsHeader.StrCatInt32 | include/strings.h:74-79 | appends the signed decimal text through the 32-byte scratch buffer |
| StringsHeader.StrCatUInt32 | include/strings.h:81-86 | appends the unsigned decimal text through the 32-byte scratch buffer |
| Adc.PinShift | include/adc.h:31 | `(port % 8) * 4` is a nibble position 0..28 |
| Adc.ModeLandsInNibble | include/adc.h:31-34 | after the update the pin's nibble equals the mode, given mode < 16 |
| Adc.OutsideNibbleKept | include/adc.h:32-34 | every bit outside the pin's nibble keeps its old value, given mode < 16 |
| Adc.SetNibbleIdempotent | include/adc.h:31-34 | applying the same update twice equals applying it once |
| Adc.WideModeLeaks | include/adc.h:33-34 | a mode wider than 4 bits leaks outside the nibble through the unmasked OR |
| Adc.SetGpioMode | include/adc.h:22-35 | ports below 8 update CRL and leave CRH, the others update CRH and leave CRL, and nothing else changes |
| Adc.EnableWordSingleBit | include/adc.h:38 | `1 << (irq % 32)` has exactly one bit set, bit irq % 32 |
| Adc.EnableNvicEnablesOne | include/adc.h:37-39 | writing the word to a set-enable register enables exactly that interrupt and keeps the others |
| Adc.EnableNvic | include/adc.h:37-39 | ISER[irq / 32] receives the word and no other ISER word changes |
| Led.LedShiftIsPinShift | include/led.h:25-33 | the LED shift `(13 - 8) * 4` is 20, which is SetGpioMode's shift for pin 13 |
| Led.LedInit | include/led.h:28-37 | APB2ENR gets the port C enable bit ORed in, CRH's pin 13 nibble is updated, and nothing else changes |
| Led.LedInitConfiguresPin | include/led.h:33-36 | pin 13's nibble becomes 0x6 (2 MHz open-drain output) and all other CRH bits are kept |
| Led.ClockEnableKeepsOthers | include/led.h:30 | the OR sets bit 4 and keeps every enable bit already set |
| Led.LedOn | include/led.h:40 | BSRR receives exactly `1 << 29`, whose effect on the output data clears pin 13 and keeps the other pins, and no other register field changes |
| Led.LedOff | include/led.h:41 | BSRR receives exactly `1 << 13`, whose effect on the output data sets pin 13 and keeps the other pins, and no other register field changes |
| Led.LedOnResetsPin | include/led.h:40 | that BSRR word clears output bit 13 and keeps the others |
| Led.LedOffSetsPin | include/led.h:41 | that BSRR word sets output bit 13 and keeps the others |
| DmaDispatch.PendingPriority | examples/adc_dma/adc_dma_main.c:73-90 | error beats half transfer beats transfer complete, each as an if-and-only-if on the ISR bits, and no flag means no event |
| DmaDispatch.PendingIgnoresOtherBits | examples/adc_dma/adc_dma_main.c:73-90 | only the three channel 1 flags decide the event |
| DmaDispatch.ClearsWhatIsPending | examples/adc_dma/adc_dma_main.c:77-87 | the clear bit ORed into IFCR is the one for the flag being handled |
| DmaDispatch.BumpOneCounter | examples/adc_dma/adc_dma_main.c:73-90 | an event increments exactly its own counter by 1 and the total by 1, and no event changes nothing |
| DmaDispatch.NoFlagNoChange | examples/adc_dma/adc_dma_main.c:73-90 | with no flag set neither the counters nor IFCR change |
| AdcDma.AdcDmaCounters.constructor | examples/adc_dma/adc_dma_main.c:22-24 | the three uninitialised globals start with the .bss fill word 0xDEADBEEF read as int32, not 0 |
| AdcDma.BssCounterValue | examples/adc_dma/adc_dma_main.c:22-29 | that starting value is -559038737, which is not 0, so the zeroing in `OnReset` is what makes the counts start at 0 |
| AdcDma.AdcDmaCounters.OnReset | examples/adc_dma/adc_dma_main.c:26-29 | all three counters are set to 0 |
| AdcDma.AdcDmaCounters.OnDma1Channel1Interrupt | examples/adc_dma/adc_dma_main.c:73-90 | the counters are bumped for the pending event, its clear bit is ORed into IFCR, and ISR is unchanged |
| LedFromMic.MeanTimesCount | examples/led_from_mic/led_from_mic_main.c:61-62 | the truncated mean is not negative and mean * count does not exceed the sum |
| LedFromMic.DeviationFitsUInt32 | examples/led_from_mic/led_from_mic_main.c:63-74 | when the sum fits int32, the deviation total fits the `uint32_t` accumulator, so it never wraps |
| LedFromMic.VolumeAtMost | examples/led_from_mic/led_from_mic_main.c:61-75 | mean and volume both lie in 0..0xffff |
| LedFromMic.ConstantSegmentSilent | examples/led_from_mic/led_from_mic_main.c:57-75 | a constant segment has that constant as its mean and volume 0 |
| LedFromMic.HalfBufferSumFits | examples/led_from_mic/led_from_mic_main.c:20-21 | the sum of half of the 1024-sample buffer fits int32 |
| LedFromMic.LedWord | examples/led_from_mic/led_from_mic_main.c:43-49 | the LED-on word is chosen exactly when the volume exceeds 10, otherwise the LED-off word |
| LedFromMic.LedFromMicState.constructor | examples/led_from_mic/led_from_mic_main.c:20-21 | the DMA buffer has 1024 samples and is freshly allocated |
| LedFromMic.LedFromMicState.InitGlobals | examples/led_from_mic/led_from_mic_main.c:28-32 | the three counters and the volume are 0 |
| LedFromMic.LedFromMicState.MainLoopStep | examples/led_from_mic/led_from_mic_main.c:43-49 | BSRR receives the word LedWord picks for the current volume, and no other GPIO register changes |
| LedFromMic.LedFromMicState.SampleTotal | examples/led_from_mic/led_from_mic_main.c:57-60 | the first loop's total is the sum of the range and fits int32 |
| LedFromMic.LedFromMicState.DeviationTotal | examples/led_from_mic/led_from_mic_main.c:63-74 | the second loop's total is the sum of absolute deviations from the mean |
| LedFromMic.LedFromMicState.ProcessDmaBuffer | examples/led_from_mic/led_from_mic_main.c:53-76 | the volume becomes the truncated mean absolute deviation of [start, end), and the counters are unchanged |
| LedFromMic.LedFromMicState.OnDma1Channel1Interrupt | examples/led_from_mic/led_from_mic_main.c:78-96 | the counters and IFCR change as in the DMA dispatch. Half transfer computes the volume of samples [0, 512) and transfer complete that of [512, 1024). An error or no flag keeps the volume |
| Startup.LoadedWords | source/startup.c:105-112 | after the copy, each destination word is the matching load-image word and every other word is kept |
| Startup.FilledWords | source/startup.c:114-120 | each bss word becomes 0xDEADBEEF, which is not 0, and the words around the range are kept |
| Startup.LoadedIdempotent | source/startup.c:105-112 | copying a second time changes nothing |
| Startup.FilledIdempotent | source/startup.c:114-120 | filling a second time changes nothing |
| Startup.LoadDataFromFlash | source/startup.c:105-112 | RAM becomes the specified copy |
| Startup.ZeroInitializeBssData | source/startup.c:114-120 | RAM becomes the specified fill |
| Startup.AfterResetWords | source/startup.c:123-125 | after the copy and then the fill, a bss word holds 0xDEADBEEF, any other data word its load-image word, and any other word its old value |
| Startup.DisjointRegionsCommute | source/startup.c:123-125 | when .data and .bss do not overlap, the order of the two steps does not matter |
| Startup.ResetMain | source/startup.c:123-125 | RAM becomes the copy followed by the fill, in that order |
| Startup.ClassifyPriority | source/startup.c:66-82 | each message is chosen exactly when its CFSR bit is set and no higher-priority bit is, in the order DIVBYZERO, UNALIGNED, NOCP, INVPC, INVSTATE, UNDEFINSTR, IBUSERR, and "Unrecognized" otherwise |
| Startup.ClassifyIgnoresOtherBits | source/startup.c:66-82 | only the seven tested CFSR bits decide the message |
| Startup.MessagesDistinct | source/startup.c:66-82 | different outcomes print different messages |
| Startup.StackedRegisters | source/startup.c:84-99 | eight words are logged, stack[0] to stack[7] in order (r0, r1, r2, r3, r12, lr, pc, psr) |
| Startup.FaultLogShape | source/startup.c:62-99 | the log starts with HFSR and ends with the eight stacked registers. CFSR and exactly one message are logged exactly when FORCED (bit 30) is set |
| Startup.HardFaultHandler | source/startup.c:61-99 | the handler emits the specified log for the SCB registers and stack |
| Startup.InterruptsLayout | source/startup.c:136-207 | the table has 16 + 53 = 69 entries, as the reference layout lists them |
| Startup.IrqVector | source/startup.c:154-206 | IRQn is entry 16 + n |
| Startup.IrqVectors | source/startup.c:165-172 | IRQ11..17 are exactly DMA1 channels 1..7 in order, IRQ18 is exactly the ADC handler, and every other IRQ is the infinite loop |

## Left out

- Volatile access, memory-mapped I/O and interrupt concurrency. Each handler is modelled as one atomic sequential step on class fields. The sharing of the globals between handlers and main loops is not modelled.
- The values of `DMA_ISR_*` and `DMA_IFCR_*`, the CFSR and HFSR masks, and `RCC_APB2ENR_IOPCEN` come from headers that are not part of this model. They are given their documented values:
  - the DMA bits from section 13.4 of the STM32F10x reference manual RM0008;
  - the CFSR and HFSR masks from sections B3.2.15-B3.2.16 of the ARMv7-M Architecture Reference Manual;
  - the APB2 enable bit as bit 4.
- Logging: `DebugLog` and `LOG_HEX32` output is modelled as a list of log items (`Startup.LogItem`), not as the formatted text. The semihosting layer is not part of this model.
- Assembly and non-termination: `HardFaultHandlerASM`, which picks MSP or PSP (its stack pointer becomes the `stack` parameter), `BKPT`, and `_infinite_loop`.
- `_main`'s call of `main()` after the two loops. Neither `main()` nor the rest of `OnReset` is modelled.
- The weak default handlers: they are vector entries, not behaviour.
- Linker symbols become indices into a RAM array and a separate load-image array. A pointer loop whose start is past its stop never terminates in C; the model requires `start <= stop`.
- `RccInitForAdc`, `AdcInit`, `AdcOn`, `AdcOff` (include/adc.h:42-84): clock and ADC bring-up by busy-waiting on hardware ready bits.
- `OnSysTick`, the timers and the benchmark timing arithmetic, which reads a hardware timer.
- `OnAdcInterrupt` in examples/adc_dma: it only formats a log line.
- The highest/lowest constants of `ReferenceConv` are unused by the source and are absent from the model.
- Conv.ReferenceConv: the output is not clamped, exactly as the source does; the unused constants suggest a saturation the code never performs.
- Conv.ReferenceConv, Gemm.ReferenceEightBitIntGemm: these require `int32_t` arithmetic not to overflow (`Int32Safe`), and they require the output buffer to be distinct from the inputs. C allows aliasing there.
- FixedPoint.Rescale: it requires `0 <= shift < 32`, which is the range where C defines the shifts.
- LedFromMic.LedFromMicState.ProcessDmaBuffer: it requires a non-empty range, because the source divides by `count`. It also requires the int32 total not to overflow, which always holds for the two half-buffer calls (`HalfBufferSumFits`).
- Strings.StrCatStr and StringsHeader.StrCatStr: the source declares a `char*` result but returns nothing, so the model returns nothing. The source's aliased buffers are required distinct.
- Strings.StrCatUInt32: requires base 3 or more, or a number below 2^31. In base 2 with bit 31 set, 32 digits do not leave room for the NUL in the 32-byte scratch buffer (`CString.UInt32DigitsFit`); this is recorded under Findings, and `Strings.StrCatUInt32WideScratch` is the corrected version.
- Strings.FastUInt32ToBufferLeft: bases from 2 to 40 are modelled (`CString.IsBase`). Beyond 36 the digits run past 'z' as the source's `'a' + (digit - 10)` does. Base 0 or 1 never terminates or divides by zero in C, and bases above 40 are not modelled.
- Adc.SetGpioMode: the signed `0xf << 28` and `mode << 28` are taken as 32-bit wrap-around, as GCC defines them.
- Adc.EnableNvic: the signed `1 << 31` is likewise taken as 32-bit wrap-around.
- Integer ranges of C `int` parameters. `Conv.ConvParams` and `Gemm.GemmParams` hold dimensions and strides as `nat`, and `Adc.SetGpioMode` takes `port: nat` and `Adc.EnableNvic` takes `irq: nat`, so negative C values are not modelled. `DmaDispatch.CanCount` excludes int32 overflow of the event counters. `Conv.Int32Safe` bounds the accumulator, but not the int32 origin and index arithmetic.
- Registers.Gpio: `odr` is a plain field that a BSRR store does not change. What the store does to the pins is given only by `Registers.ApplyBsrr`, which `Led.LedOn` and `Led.LedOff` state for their words and `Led.LedOnResetsPin` and `Led.LedOffSetsPin` prove.
- Startup.HardFaultHandler: reads the SCB registers once. In the source each access to the volatile registers is a separate read.

## Findings

| source | as written | input that shows it | evidently intended | confidence | as-written member | corrected member |
|---|---|---|---|---|---|---|
| include/strings.h:64-65 | the append bound is `current + (main_max_length - 1)`, counted from the end of the existing string; `current_length` is computed and never used | main holds "abc" with main_max_length 4 and to_append is "xyz": the result is "abcxyz", 7 bytes in a 4-byte string | bound the whole string by main_max_length, as source/strings.c:66 does, so that a string that fits keeps fitting | not executed | StringsHeader.HeaderCatTextOverflows | Strings.CatTextFits |
| source/strings.c:83-85 | `StrCatUInt32` formats into `char number_string[kFastToBufferSize]`, 32 chars, for any base | number 0x8000_0000 in base 2: 32 digits plus the NUL are 33 chars, one past the end of the scratch buffer | a scratch buffer large enough for every uint32 in every accepted base, 33 chars for base 2 | not executed | CString.UInt32DigitsFit | Strings.StrCatUInt32WideScratch |
