# GPS signal simulator: models and proofs

The simulator builds the GPS L1 C/A signal of up to twelve satellites and plays it through a LimeSDR board. These
Dafny files model the self-contained algorithms in that chain and prove what they are relied on for:

- **Linear systems** (`Matrices`, `Lu`, `LuSolve`, `LuTheorems`, `Underdetermined`): the in-place LU decomposition with scaled partial
  pivoting behind the least-squares filter design, and the two substitutions, over the reals.
- **Signed-digit filter coefficients** (`SignedDigits`, `Rounding`, `RoundingTheorems`): canonical signed digits,
  cutting to a digit budget, and shared sub-expressions.
- **Navigation message** (`NavWord`, `NavMessage`, `NavStream`, `NavBits`, `NavRun`): parity of single words, the
  buffer of 60 words, the endless stream that successive 30 second buffers spell, what its bits spell in the order they
  are sent, and the clock that makes the calls.
- **Baseband generator** (`CodePhase`, `Modulation`, `SendingRun`): the code, bit and word counters, every I/Q sample of
  a buffer and what it carries of each message, and a whole run of buffers.
- **Channel allocation** (`Allocator`, `AllocatorTheorems`), **GPS time** (`GpsTimes`) and **calendar** (`Calendar`).
- **Sample FIFO** (`Fifo`, `FifoProtocol`): the ring as an object, and generator and transmitter as two threads that
  take atomic steps.
- **USB descriptors** (`UsbDescriptor`, `UsbParser`, `UsbRoundTrip`, `UsbExtras`, `UsbCounts`).
- **Clock chip planning** (`Vco`, `VcoTheorems`, `VcoLimits`, `Fractions`).
- **RTCM 3 reader** (`CrcPolynomial`, `CrcTable`, `Rtcm3`, `Rtcm3Receiver`, `Rtcm3Splits`).
- **FPGA packets** (`FpgaPacket`, `FpgaPayload`) and **connection handles** (`ConnectionHandle`, `HandleRoundTrip`).

Code that changes arrays and fields step by step is written as methods over arrays and classes and proved against a
function or predicate on values; the theorems are lemmas about those values. Indices start at 0 where recipes.c
counts from 1. Integers are unbounded unless a wrap is written out.

## Findings

Where the code does not do what its callers or its own comments expect, the model keeps the code and the proof states
exactly when it does:

- **FIFO publication** (gpssim.c 3630-3632). The producer publishes the head in two unlocked stores. A read that starts
  between them with an empty ring and the tail at 0 sees a full ring and returns unpublished samples. Every
  interleaving without such a read is safe (`FifoProtocol.RunSafe`), a step is unsafe exactly when it is such a read
  (`StepSafeIff`), and for every block size, every ring of two or more blocks and all samples a run is given that
  reaches one (`RaceIsReachable`).
- **Raised pivots** (recipes.c 211). A zero pivot is replaced by 10^-20 and the factorisation goes on. L·U is then the
  exchanged input with that amount added on the diagonal, which happens exactly for singular matrices
  (`RaisedIffSingular`); every right-hand side gets its solution exactly when the matrix is nonsingular
  (`AllSolvedIffNonsingular`).
- **Top of the coefficient range** (rounding.c 197-242). A coefficient that rounds up to 2^cprec comes back as zero from
  its code (`TopOfRangeCollapses`); `round2csd` and `round2int` agree exactly below 2^cprec - 1/2
  (`RoundingsAgreeWithWideBudget`).
- **TOW count** (gpssim.c 1582). The builder counts on from the start of its frame without wrapping, so the fifth
  subframe of a week's last frame carries 100800 where IS-GPS-200 has 0. No other subframe is wrong, however many weeks
  a run crosses, because incGpsTime carries every call's time into its own week (`TowMatchesStandardIff`); a run from
  second 604770 shows it (`TowWrongAtWeekEnd`).
- **Handles without a name** (ConnectionHandle.cpp 48). They do not parse back unless every field is default. A handle
  with a 32-bit index is restored exactly when its fields are trimmed and free of commas and it has a name or is all
  defaults (`RoundTripIff`).
- **Output 6 of the clock chip** (Si5351C.cpp 468-477). When output 6 is in use and has no even multiple in the range,
  PLL A counts as taken with nothing to choose from: it is set to 0 Hz, and every output in use is put in integer mode
  on it with divider 0 (`Output6StopsAll`). In the chip's range every output in use runs on a PLL within the range
  exactly when output 6 is off or set from 2.362205 to 150 MHz; outputs may be set from 8 kHz to 160 MHz (`PllRunsIff`).
- **Output 7 of the clock chip** (Si5351C.cpp 532-549). PLL B is reserved for it, but the assignment to PLL A runs first
  and can give it an odd divider, which it cannot use (`Output7LosesItsPll`). The exact condition is on the inputs alone,
  over the even multiples in the range and the frequency PLL A will take (`Output7OkIff`); with output 6 in use and
  nothing to share, there must be such a multiple and this frequency must not be one of output 7's
  (`BothInUseOutput7OkIff`).
- **PLL B of the clock chip** (Si5351C.cpp 577-592). Its score counts outputs that PLL A serves already, so it need not
  serve as many of the outputs left over as it could: at 100, 100, 90, 70 and 63 MHz it takes 700 MHz for one of them,
  where 630 MHz would serve both (`PllBLeavesOneOver`); `PllBServesMostIff` has the exact condition.
- **Divider limits of the clock chip** (Si5351C.cpp 656). The planner counts an even divider of 6 as usable, and
  ConfigureClocks refuses every divider below 8 (`UsableDividerRefused`); `AllDividersTakenIff` says when it takes all.
- **Unknown USB descriptors** (descriptor.c 461). The note that later runs should be appended is moot: no later run can
  exist (`FirstRunIsAll`).
- **Missing endpoints** (descriptor.c 291-297). When the bytes end inside a class or vendor descriptor right behind an
  interface descriptor, the setting is kept with the count it announces and no endpoints, and find_endpoint
  (core.c 1003) relies on the count (`EndpointMissing`). Every setting has the endpoints it counts exactly when the
  bytes are not cut there, and only the last setting of the last interface can be affected (`ConfigCountedIff`,
  `BodyCountedIff`).
- **Frames received in two parts** (getRTCM3Eph.c 293). The length of the frame being collected is declared inside the
  receive loop and set only at a frame's third byte, so a new received buffer starts with whatever it holds. A good
  frame cut behind its third byte is handed over exactly when that is still its length (`SplitFrameIff`,
  `LostBehindHeader`); a run in which it always is hands over exactly the frames of the whole stream
  (`CollectedIsFrames`, `ReceiveAll`).
- **Index of the frame buffer** (getRTCM3Eph.c 293-311). For the same reason the index can leave the array of 1200
  bytes. It stays inside exactly when no byte comes, or fewer than three are collected, or the length on entry is not
  negative and is at most 1197 or never reached within the array (`InsideIff`); three bytes collected, 1198 to come and
  the length 1198 leave it (`IndexLeavesArray`).
- **Channel allocation** (gpssim.c 1642-1704). One call can leave a visible satellite without a channel while one is
  free: a run of two calls from the initial state ends so (`UnsettledRun`). The exact condition is counted from the
  state before the call and the satellites visible (`CallSettlesIff`); two calls always settle it.

## Model

| member | source | states |
|---|---|---|
| Matrices.TimesAssociative | app/src/main/cpp/GFIR/recipes.c:226-250 | applying L·U to a vector is applying U and then L, which is why two substitutions solve the system |
| Lu.ReduceUpper | app/src/main/cpp/GFIR/recipes.c:184-188 | the rows above the diagonal of a column become their residuals against the rows already finished; nothing else moves |
| Lu.ReduceLower | app/src/main/cpp/GFIR/recipes.c:189-199 | the rest of the column becomes residuals, and the pivot row is the last one with the largest scaled magnitude |
| Lu.SwapRows | app/src/main/cpp/GFIR/recipes.c:201-205 | two whole rows change places, all others stay |
| Lu.ExchangeRows | app/src/main/cpp/GFIR/recipes.c:200-209 | the exchange is recorded, the scale moves with its row, and the parity flips exactly for a proper exchange |
| Lu.ScaleColumn | app/src/main/cpp/GFIR/recipes.c:213-216 | the multipliers of the column are its residuals divided by the pivot |
| Lu.ScaleRows | app/src/main/cpp/GFIR/recipes.c:174-182 | the reciprocal of every row's largest magnitude; it stops exactly at a row of zeros |
| Lu.PivotRaised | app/src/main/cpp/GFIR/recipes.c:210-212 | when the chosen pivot is zero everything below it is zero too, so raising it changes one diagonal entry only |
| Lu.FactorColumn | app/src/main/cpp/GFIR/recipes.c:184-216 | one turn of the outer loop finishes one more column of the factorisation of the original input |
| Lu.Ludcmp | app/src/main/cpp/GFIR/recipes.c:163-221 | for every matrix without a zero row: unit-lower L times upper U is the input with its rows exchanged as recorded, plus TINY at zero pivots; pivots are nonzero, multipliers bounded by the row scales, d is the parity; it stops unchanged exactly when a row is zero |
| LuSolve.ShortSumSuffices | app/src/main/cpp/GFIR/recipes.c:237-241 | starting the inner sum at the first nonzero entry gives the whole sum |
| LuSolve.Forward | app/src/main/cpp/GFIR/recipes.c:233-243 | forward substitution in place, with exchanges as recorded, solves L y = the exchanged right-hand side |
| LuSolve.Backward | app/src/main/cpp/GFIR/recipes.c:244-248 | back substitution in place solves U x = y |
| LuSolve.Lubksb | app/src/main/cpp/GFIR/recipes.c:226-250 | L·U applied to the result is the exchanged right-hand side, for every right-hand side |
| LuTheorems.ExchangedReadsOrigin | app/src/main/cpp/GFIR/recipes.c:200-209 | the recorded exchanges are a permutation of the rows, and exchanging a vector reads it through that permutation |
| LuTheorems.SolutionMeetsRows | app/src/main/cpp/GFIR/recipes.c:226-250 | the result satisfies every equation of the original system, up to the pivots that were raised |
| LuTheorems.RaisedIffSingular | app/src/main/cpp/GFIR/recipes.c:211 | no pivot has to be raised if and only if the matrix sends no nonzero vector to zero |
| LuTheorems.SystemSolved | app/src/main/cpp/GFIR/recipes.c:163-250 | for every nonsingular matrix and right-hand side, factoring and substituting gives A x = b |
| LuTheorems.AllSolvedIffNonsingular | app/src/main/cpp/GFIR/recipes.c:163-250 | every right-hand side gets an answer that satisfies the system if and only if the matrix is nonsingular |
| LuTheorems.SingularWithoutZeroRow | app/src/main/cpp/GFIR/recipes.c:211 | a singular matrix can have no row of zeros, so raised pivots do occur |
| LuTheorems.RaisedBy | app/src/main/cpp/GFIR/recipes.c:211 | what a pivot is raised by is 0 or 10^-20, and then the pivot is that alone |
| LuTheorems.ScaleIsLargest | app/src/main/cpp/GFIR/recipes.c:174-180 | the scale of a row bounds all its entries and is one of them but for its sign |
| Underdetermined.NonzeroSolution | app/src/main/cpp/GFIR/recipes.c:174-182 | fewer equations than unknowns always have a nonzero solution |
| Underdetermined.ZeroRowIsSingular | app/src/main/cpp/GFIR/recipes.c:174-182 | a square matrix with a row of zeros is singular |
| LuTheorems.NonsingularIsFactored | app/src/main/cpp/GFIR/recipes.c:174-182 | so the factorisation never stops on a nonsingular matrix |
| LuTheorems.Solve | app/src/main/cpp/GFIR/lms.c:166-167 | the two calls in the filter design solve every nonsingular system in place, with no other condition; on failure the matrix, the record of exchanges and the right-hand side are as they were |
| SignedDigits.CanonicalHasFewestDigits | app/src/main/cpp/GFIR/rounding.c:214-231 | no string of digits -1, 0, 1 of any length for the same number has fewer nonzero digits than one without adjacent nonzero digits |
| SignedDigits.CanonicalIsUnique | app/src/main/cpp/GFIR/rounding.c:214-231 | a number has at most one such string of each length |
| SignedDigits.CanonicalIsSparse | app/src/main/cpp/GFIR/rounding.c:221-231 | at most half of the places, rounded up, hold a digit |
| SignedDigits.TruncationError | app/src/main/cpp/GFIR/rounding.c:233-240 | dropping the low digits moves the number by less than a third of the lowest kept place |
| Rounding.Recode | app/src/main/cpp/GFIR/rounding.c:221-231 | the carry loop turns bits into digits with no two neighbours nonzero and the same value |
| Rounding.CutCode | app/src/main/cpp/GFIR/rounding.c:233-240 | exactly the most significant digits within the budget stay |
| Rounding.Int2Csd | app/src/main/cpp/GFIR/rounding.c:197-242 | the three code rows: signed bits, a canonical code of the number modulo 2^cprec with its sign, and that code cut to the budget |
| Rounding.Csd2Int | app/src/main/cpp/GFIR/rounding.c:246-255 | the accumulating loop gives the number a digit string stands for |
| Rounding.Round2Int | app/src/main/cpp/GFIR/rounding.c:20-31 | every entry becomes a multiple of 2^-cprec with none nearer to what it was, and of the two halfway between the one of larger magnitude, also when both arrays are the same |
| Rounding.RoundedIsNearest | app/src/main/cpp/GFIR/rounding.c:27-28 | adding or taking half and cutting off gives a whole number at most half away, and at exactly half the one of larger magnitude |
| Rounding.NearestIsUnique | app/src/main/cpp/GFIR/rounding.c:27-28 | only one whole number is nearest in that sense |
| Rounding.NearestMultipleIff | app/src/main/cpp/GFIR/rounding.c:27-29 | a fraction is such a nearest multiple if and only if its numerator is the rounded number |
| Rounding.Round2Csd | app/src/main/cpp/GFIR/rounding.c:35-49 | every coefficient is coded, cut and decoded, and the three rows are kept; CodedIsNearestIff says when the result is the nearest multiple |
| Rounding.EqualPair | app/src/main/cpp/GFIR/rounding.c:292-299 | two equal digits two places apart are worth five quarters of the upper one |
| Rounding.OppositePair | app/src/main/cpp/GFIR/rounding.c:300-307 | two opposite digits two places apart are worth three quarters of the upper one |
| Rounding.CseshRow | app/src/main/cpp/GFIR/rounding.c:277-313 | for every row of digits: 4·V(code) = 5·V(xpx) + 3·V(xmx) + 4·V(x), the digit counts add up, and no digit left alone could have been paired |
| Rounding.Csesh | app/src/main/cpp/GFIR/rounding.c:260-315 | the same for every row of a filter, starting from cleared arrays |
| RoundingTheorems.CodeIsExactAndLightest | app/src/main/cpp/GFIR/rounding.c:214-231 | for every number in range the code stands for it and no signed-digit string of any length is lighter |
| RoundingTheorems.CutCodeError | app/src/main/cpp/GFIR/rounding.c:233-240 | with a budget of at least one, the cut code of a nonzero number is off by less than a third of its lowest kept place |
| RoundingTheorems.CutCodeIsExactIff | app/src/main/cpp/GFIR/rounding.c:197-242 | for all numbers and budgets, the cut code is exact if and only if the number is in range and its fewest digits fit the budget |
| RoundingTheorems.RoundingsAgreeIff | app/src/main/cpp/GFIR/rounding.c:20-49 | the two roundings give the same coefficient if and only if it rounds into range and its code fits the budget |
| RoundingTheorems.CodedIsNearestIff | app/src/main/cpp/GFIR/rounding.c:35-49 | what a coefficient comes back as is the nearest multiple of 2^-cprec if and only if it rounds into range and its lightest code fits the budget |
| RoundingTheorems.RoundingsAgreeWithWideBudget | app/src/main/cpp/GFIR/rounding.c:20-49 | with 2·csdprec at least cprec + 2 they agree if and only if the scaled magnitude is below 2^cprec - 1/2 |
| RoundingTheorems.TopOfRangeCollapses | app/src/main/cpp/GFIR/rounding.c:197-242 | 0.9 with two places: rounded to 1 by one function, to 0 by the other |
| NavWord.CountIsParity | app/src/main/cpp/gpssim.c:692-707 | the folded bit count is odd exactly when the exclusive or of the 32 bits is one |
| NavWord.Mask25 | app/src/main/cpp/gpssim.c:740-742 | the first mask selects the data bits of the D25 equation of Table 20-XIV of IS-GPS-200 |
| NavWord.Mask26 | app/src/main/cpp/gpssim.c:740-742 | the same for D26 |
| NavWord.Mask27 | app/src/main/cpp/gpssim.c:740-742 | the same for D27 |
| NavWord.Mask28 | app/src/main/cpp/gpssim.c:740-742 | the same for D28 |
| NavWord.Mask29 | app/src/main/cpp/gpssim.c:740-742 | the same for D29 |
| NavWord.Mask30 | app/src/main/cpp/gpssim.c:740-742 | the same for D30 |
| NavWord.Solved24 | app/src/main/cpp/gpssim.c:756-757 | solving bit 24 makes D29 come out zero and changes no other data bit |
| NavWord.Solved23 | app/src/main/cpp/gpssim.c:758-759 | solving bit 23 makes D30 come out zero and leaves D29 alone |
| NavWord.TransmitHolds | app/src/main/cpp/gpssim.c:762-773 | the transmitted word satisfies all six parity equations after its predecessor, and the receiver undoes the inversion |
| NavWord.WordHolds | app/src/main/cpp/gpssim.c:714-777 | for every source word: parity holds, the receiver recovers the source bits except the two solved ones, and solved words end in two zeros |
| NavMessage.ChainSent | app/src/main/cpp/gpssim.c:1584-1602 | every word of a subframe, chained to the one before, is accepted and read as its source word, with the TOW count in word 2 |
| NavMessage.Channel.WriteSubframe | app/src/main/cpp/gpssim.c:1584-1602 | ten chained words are laid into the buffer and nothing else changes |
| NavMessage.Channel.SaveSubframe5 | app/src/main/cpp/gpssim.c:1564-1569 | the last ten words move to the front |
| NavMessage.Channel.BuildMessage | app/src/main/cpp/gpssim.c:1542-1603 | the whole new buffer: built afresh, or chained on from the last one |
| NavMessage.Channel.GenerateNavMsg | app/src/main/cpp/gpssim.c:1526-1606 | reference time aligned to the 30 second frame, week number modulo 1024, and the buffer for that time |
| NavStream.BufferIsWindow | app/src/main/cpp/gpssim.c:1564-1603 | after any number of calls the buffer is the last 60 words of one stream that only grows |
| NavStream.StreamOfSubframes | app/src/main/cpp/gpssim.c:1542-1603 | that stream is one subframe after another, each chained to the last word before it, with the week and TOW count of its call, whatever refreshes happen between calls and however many weeks end |
| NavStream.StreamReceived | app/src/main/cpp/gpssim.c:714-777 | over any run every word passes parity and is read, week number and TOW count included; words 2 and 10 end in zeros, so every subframe starts uninverted |
| NavStream.BufferReadsStream | app/src/main/cpp/gpssim.c:1352-1366 | for every time a buffer covers it gives the bit the one stream has at that time |
| NavStream.OverlapUnchanged | app/src/main/cpp/gpssim.c:2411-2420 | moving the reference time by 30 s and keeping the last subframe leaves every bit of the overlap as it was |
| NavBits.WordSpelled | app/src/main/cpp/gpssim.c:1366 | the 30 bits of a word, in the order they are sent, spell its number |
| NavBits.BitWorth | app/src/main/cpp/gpssim.c:1366 | of n bits, bit k is worth 2^(n-1-k) |
| NavBits.ParityOnAir | app/src/main/cpp/gpssim.c:2353 | the last six bits of a word sent are D25 to D30 |
| NavBits.DataBitOnAir | app/src/main/cpp/gpssim.c:2353 | each of the first 24 bits sent is the data bit a receiver recovers, turned over if the word before ended in a one |
| NavBits.SourceOnAir | app/src/main/cpp/gpssim.c:2353 | over any run, the data bits on the air, so turned over, are those of the source word, but for the two solved for in words 2 and 10 |
| NavBits.TowOnAir | app/src/main/cpp/gpssim.c:1366 | over any run, the 17 bits from the start of word 2 of every subframe, turned over if the bit before them is a one, spell the TOW count received: the standard's, or 100800 at a week's end |
| NavBits.WeekOnAir | app/src/main/cpp/gpssim.c:1589-1590 | the 10 bits from the start of word 3 of every first subframe spell the week of its frame modulo 1024 |
| NavStream.ReferenceAdvances | app/src/main/cpp/gpssim.c:1536-1537 | the reference times of successive calls are 30 seconds apart in GPS time, week ends included |
| NavStream.WeekReceived | app/src/main/cpp/gpssim.c:1589-1590 | the week number read in every first subframe is the week of its own frame, modulo 1024 |
| NavRun.CallAligned | app/src/main/cpp/gpssim.c:1536-1540 | a call from half a second before a frame's start to half a second before its end is for that frame |
| NavRun.NextTenth | app/src/main/cpp/gpssim.c:810-832 | incGpsTime by 0.1 s moves a time in tenths on by one tenth, across week ends too |
| NavRun.FrameBegins | app/src/main/cpp/gpssim.c:2411-2413 | the test on the second of the week holds exactly when a frame begins |
| NavRun.PlayRun | app/src/main/cpp/gpssim.c:2243-2420 | from any whole second on and over any number of steps and week ends, the clock is right, a call is made for every frame that begins, and the channel holds the buffer and reference time of the run's last call |
| NavRun.ElapsedSinceReference | app/src/main/cpp/gpssim.c:1352 | the time since a call's reference time is the time since the run's first one less 30 seconds a call, in whatever weeks they fall |
| NavStream.TowMatchesStandardIff | app/src/main/cpp/gpssim.c:1582 | over any run and any number of week ends, the TOW count received is the standard's if and only if the subframe is not the fifth of a week's last frame, or is the one laid in before the run's first frame; otherwise it is 100800 |
| NavStream.TowWrongAtWeekEnd | app/src/main/cpp/gpssim.c:1582 | a run from second 604770: 100800 is received where the standard has 0, then 1 in the next week as it should be |
| CodePhase.PhaseParts | app/src/main/cpp/gpssim.c:1352-1366 | code phase and counters together are one total phase; chip and data bit under them are the lookups at that phase |
| CodePhase.Tracker.ComputeCodePhase | app/src/main/cpp/gpssim.c:1338-1370 | the counters start exactly at the phase of the transmission time, with the Doppler steps of the range change |
| CodePhase.Tracker.StepCode | app/src/main/cpp/gpssim.c:2329-2355 | whatever carries, the total phase has grown by exactly one step and the data bit is the one under the new counters |
| CodePhase.Tracker.Tick | app/src/main/cpp/gpssim.c:2329-2369 | a channel stays in step with its closed form from sample to sample |
| CodePhase.LaterByOne | app/src/main/cpp/gpssim.c:2329-2369 | n samples and one more are n + 1 samples: phase grown by n steps, carrier by n of its own |
| CodePhase.Quantise | app/src/main/cpp/gpssim.c:2375-2380 | what is stored is the 16-bit number congruent to the sum divided by 2^7 and rounded |
| CodePhase.StoredIsUnique | app/src/main/cpp/gpssim.c:2375-2380 | no other number is |
| CodePhase.EmitSample | app/src/main/cpp/gpssim.c:2309-2380 | one I/Q pair stores, over the allocated channels, the sum of data bit times chip times table entry times gain at the closed form's phases |
| CodePhase.FillBuffer | app/src/main/cpp/gpssim.c:2307-2381 | every I/Q sample of a buffer of any length is the closed form at that many steps from the start |
| Modulation.PartReverses | app/src/main/cpp/gpssim.c:2321-2322 | a channel's part of a sample changes sign with its data bit, and with its chip |
| Modulation.PartIsTableEntry | app/src/main/cpp/gpssim.c:2319-2322 | with both at one and phase 65536·(512·h + k) + r it is entry k of the table times the gain |
| Modulation.CarrierWraps | app/src/main/cpp/gpssim.c:2361 | the carrier phase is kept from 0 to 2^32 - 1, congruent modulo 2^32 |
| Modulation.PartOfReversed | app/src/main/cpp/gpssim.c:2321-2322 | with every bit of its message turned over a channel's part of every sample changes sign |
| Modulation.SumWithReversed | app/src/main/cpp/gpssim.c:2324-2326 | and in the accumulated sum nothing else changes |
| Modulation.BufferWithReversed | app/src/main/cpp/gpssim.c:2307-2381 | so two buffers filled alike but for one channel's message differ in every sample by twice that channel's part |
| CodePhase.SentBitIsStreamBit | app/src/main/cpp/gpssim.c:1352-1366 | the data bit sent at a time is the message stream's bit of that time |
| SendingRun.SinceFrameStart | app/src/main/cpp/gpssim.c:1352 | at any time of a run the last call's reference time is from 0 to 29.9 seconds back, week ends included |
| SendingRun.TenthFits | app/src/main/cpp/gpssim.c:2345-2348 | for ranges from a metre to six light seconds, the counters set from one range and the chips of the next tenth of a second stay inside the message buffer |
| SendingRun.SetChannel | app/src/main/cpp/gpssim.c:2280-2293 | the counters are set so that the whole tenth can be sent, from the phase that left the satellite a range ago |
| SendingRun.SendRun | app/src/main/cpp/gpssim.c:2269-2420 | over any number of steps, message calls and week ends, every tenth is sent from the buffer in force, every sample is the closed form's, and the message never runs out |
| SendingRun.BitOnAir | app/src/main/cpp/gpssim.c:1352-1366 | at every tenth of a run the data bit is the one the message stream has at the GPS time of transmission |
| SendingRun.TenthsMeet | app/src/main/cpp/gpssim.c:1346-1356 | the phase at which a tenth of a run ends and the next begins differ by the change of range times the difference of two constants in chips per metre, message calls or not: by nothing if and only if the range is unchanged, and always by less than a ten-thousandth of a chip |
| Allocator.Turn | app/src/main/cpp/gpssim.c:1644-1703 | whatever a satellite's turn does, the channel and satellite tables stay inverse to each other |
| Allocator.Channels.constructor | app/src/main/cpp/gpssim.c:2234-2240 | all channels free, no satellite allocated |
| Allocator.Channels.TakeTurn | app/src/main/cpp/gpssim.c:1644-1703 | one satellite takes the first free channel, keeps its own, or gives it up |
| Allocator.Channels.AllocateChannel | app/src/main/cpp/gpssim.c:1631-1707 | the turns of all satellites in order, with the number visible |
| AllocatorTheorems.OnlyVisibleAfterCall | app/src/main/cpp/gpssim.c:1642-1704 | after a call only visible satellites hold channels, and visible holders keep theirs |
| AllocatorTheorems.HoldersAfter | app/src/main/cpp/gpssim.c:1642-1704 | after the turns of the first satellites, exactly those visible hold a channel that had one or found one free, by the count taken before the call |
| AllocatorTheorems.CallSettlesIff | app/src/main/cpp/gpssim.c:1642-1704 | one call settles the allocation if and only if no channel is free at its end or one was free at every turn of a visible satellite without one, both counted from the state before the call and the satellites visible |
| AllocatorTheorems.CallSettles | app/src/main/cpp/gpssim.c:1642-1704 | in particular, one call settles the allocation if no invisible satellite holds a channel |
| AllocatorTheorems.SecondCallSettles | app/src/main/cpp/gpssim.c:1642-1704 | after two calls with the same visibility every visible satellite has a channel or all 12 are busy |
| AllocatorTheorems.ThirdCallChangesNothing | app/src/main/cpp/gpssim.c:1642-1704 | a third call changes nothing |
| AllocatorTheorems.ChannelsInUse | app/src/main/cpp/gpssim.c:1642-1706 | then as many channels are busy as satellites are visible, or all 12 |
| AllocatorTheorems.OneCallIsNotEnough | app/src/main/cpp/gpssim.c:1648-1703 | whenever all channels are taken and satellite 0 comes into view as satellite 31 leaves it and no other changes, one call does not settle the allocation |
| AllocatorTheorems.UnsettledRun | app/src/main/cpp/gpssim.c:2234-2240 | from the initial state: twelve satellites take all channels, then satellite 0 replaces satellite 31, and the second call ends with a channel free and satellite 0 without one |
| GpsTimes.IncGpsTime | app/src/main/cpp/gpssim.c:810-832 | the time dt later, to the nearest millisecond, with its seconds inside a week; no other result has both |
| GpsTimes.SubIsElapsed | app/src/main/cpp/gpssim.c:800-808 | the difference of two times is the time elapsed between them, in whatever weeks they lie |
| GpsTimes.MillisecondIsNearest | app/src/main/cpp/gpssim.c:817 | what is kept of a second is a whole number of milliseconds, none nearer, and the one further from 0 halfway between two |
| Calendar.NextDayNumber | app/src/main/cpp/gpssim.c:205-213 | the day count of the next day is one more, across months and leap years |
| Calendar.DayOfDayNumber | app/src/main/cpp/gpssim.c:205-213 | every date from 6 January 1980 on is the day its count says, counting one by one |
| Calendar.DateOfDayNumber | app/src/main/cpp/gpssim.c:226-233 | the date formula undoes the day count |
| Calendar.DateRoundTrip | app/src/main/cpp/gpssim.c:198-240 | date to GPS time and back gives the same date and time, with the seconds inside the week |
| Calendar.GpsRoundTrip | app/src/main/cpp/gpssim.c:223-240 | GPS time to date and back gives the same GPS time, on a valid date |
| Calendar.DaysAreConsecutive | app/src/main/cpp/gpssim.c:215-218 | the same time on the next day is 86400 seconds later, across weeks |
| Calendar.HoursAreConsecutive | app/src/main/cpp/gpssim.c:215-218 | an hour on is 3600 seconds later, into the next day, month, year and week too |
| Calendar.MinutesAreConsecutive | app/src/main/cpp/gpssim.c:215-218 | a minute on is 60 seconds later, into the next hour, day, month, year and week too |
| Calendar.SecondsCount | app/src/main/cpp/gpssim.c:215-218 | x seconds on within a minute is x later |
| Calendar.FirstDay | app/src/main/cpp/gpssim.c:205-218 | 6 January 1980 begins GPS time, and 12:30 that day is second 45000 |
| Calendar.Year2100 | app/src/main/cpp/gpssim.c:208-210 | the code's leap rule gives 2100 a 29 February |
| Fifo.SampleFifo.constructor | app/src/main/cpp/lime_main.c:42-58 | an empty ring of a whole number of blocks, at least two |
| Fifo.SampleFifo.Read | app/src/main/cpp/lime_main.c:81-109 | as many of the oldest unread samples as asked for and available, in order; the others stay |
| Fifo.SampleFifo.IsWriteReady | app/src/main/cpp/lime_main.c:116-125 | ready exactly when fewer than one block is unread |
| Fifo.SampleFifo.Write | app/src/main/cpp/gpssim.c:3628-3632 | one block is appended behind the unread samples, which stay |
| Fifo.BlockFits | app/src/main/cpp/gpssim.c:3628-3632 | a block written at a block boundary never runs over the end of the ring |
| FifoProtocol.CopyInSafe | app/src/main/cpp/gpssim.c:3621-3628 | the unlocked copy never touches an unread sample |
| FifoProtocol.CopyOutSafe | app/src/main/cpp/lime_main.c:94-106 | the reader copies only published samples |
| FifoProtocol.StepSafe | app/src/main/cpp/lime_main.c:70-125 | every step of either thread except a racing read keeps the whole invariant |
| FifoProtocol.StepSafeIff | app/src/main/cpp/gpssim.c:3630-3632 | a step from a safe state is safe if and only if it is not a read starting between the two stores of the head with the tail at 0 |
| FifoProtocol.RunSafe | app/src/main/cpp/lime_main.c:168-199 | every interleaving of any length without such a read stays safe |
| FifoProtocol.RunFromStart | app/src/main/cpp/lime_main.c:168-199 | from the start, the samples read are then a prefix of the samples published |
| FifoProtocol.RaceReadsUnpublished | app/src/main/cpp/lime_main.c:81-109 | such a read can always return a sample nobody has published |
| FifoProtocol.RaceIsReachable | app/src/main/cpp/gpssim.c:3630-3632 | for every block size, every ring of a whole number of blocks from two on, and all samples: a run from the start that publishes one ring of samples and reads them all and the first one again |
| UsbParser.UsbiParseDescriptor | app/src/main/cpp/libusb/descriptor.c:45-93 | for every format string: the bytes covered and the little-endian fields stored |
| UsbDescriptor.FieldMeaning | app/src/main/cpp/libusb/descriptor.c:45-93 | a field is one byte, two or four bytes as a little-endian number, or sixteen bytes as they are |
| UsbParser.SkipUnknown | app/src/main/cpp/libusb/descriptor.c:144-167 | how far a run of class and vendor descriptors reaches and how it ends |
| UsbParser.ParseEndpoint | app/src/main/cpp/libusb/descriptor.c:101-189 | result and endpoint for every buffer, errors included |
| UsbParser.ParseEndpoints | app/src/main/cpp/libusb/descriptor.c:330-346 | at most the announced endpoints, ending early at anything else |
| UsbParser.ParseInterface | app/src/main/cpp/libusb/descriptor.c:216-360 | the alternate settings of one interface for every buffer |
| UsbParser.ParseConfiguration | app/src/main/cpp/libusb/descriptor.c:375-491 | the configuration and the bytes left over for every buffer |
| UsbDescriptor.ParseEndpoint | app/src/main/cpp/libusb/descriptor.c:101-189 | on any bytes: an error, or no more than the bytes there |
| UsbDescriptor.ParseInterface | app/src/main/cpp/libusb/descriptor.c:216-360 | on any bytes: an error with nothing kept, or no more than the bytes there |
| UsbDescriptor.ParseConfiguration | app/src/main/cpp/libusb/descriptor.c:375-491 | on any bytes: an error, or what is left over is between 0 and the size |
| UsbRoundTrip.ScanStops | app/src/main/cpp/libusb/descriptor.c:141-167 | a run of whole unknown descriptors is passed over exactly |
| UsbRoundTrip.ScanPassesUnknowns | app/src/main/cpp/libusb/descriptor.c:141-167 | whatever is passed over is such a run, on any bytes |
| UsbRoundTrip.EndpointRoundTrip | app/src/main/cpp/libusb/descriptor.c:101-189 | an endpoint of 7 or 9 bytes with its unknown descriptors is parsed back from its bytes |
| UsbRoundTrip.SettingRoundTrip | app/src/main/cpp/libusb/descriptor.c:231-345 | an alternate setting with all its endpoints is parsed back |
| UsbRoundTrip.InterfaceRoundTrip | app/src/main/cpp/libusb/descriptor.c:216-360 | alternate settings are grouped by interface number, and grouping stops where the number changes |
| UsbRoundTrip.ConfigRoundTrip | app/src/main/cpp/libusb/descriptor.c:375-491 | every well-formed configuration is rebuilt from its bytes, with exactly the bytes that follow left over |
| UsbRoundTrip.ConfigAloneRoundTrip | app/src/main/cpp/libusb/descriptor.c:375-491 | and with 0 bytes left when nothing follows |
| UsbRoundTrip.OneEndpoint | app/src/main/cpp/libusb/descriptor.c:101-189 | 25 bytes of a configuration with one bulk endpoint are parsed whole, and no bytes at all are answered with -1 |
| UsbExtras.InterfaceLeavesNoUnknowns | app/src/main/cpp/libusb/descriptor.c:282-345 | on any bytes, what follows a parsed interface has no unknown descriptors at its front |
| UsbExtras.FirstRunIsAll | app/src/main/cpp/libusb/descriptor.c:457-473 | on any bytes, keeping the first run of unknown descriptors is the same as appending them all |
| UsbCounts.InterfaceCountedIff | app/src/main/cpp/libusb/descriptor.c:282-345 | on any bytes, all settings of a parsed interface but the last have the endpoints they count, and the last does if and only if the bytes are not cut short behind its descriptor |
| UsbCounts.BodyCountedIff | app/src/main/cpp/libusb/descriptor.c:419-486 | on any bytes, all settings of the parsed interfaces have the endpoints they count if and only if the bytes are not cut so in one of them; only the last setting of the last interface can lack some, and what is left over begins with a descriptor longer than itself |
| UsbCounts.ConfigCountedIff | app/src/main/cpp/libusb/descriptor.c:375-491 | the same for a whole configuration |
| UsbCounts.EndpointMissing | app/src/main/cpp/libusb/descriptor.c:291-297 | 20 bytes that give a setting with one endpoint counted and none there |
| UsbCounts.TooManyEndpoints | app/src/main/cpp/libusb/descriptor.c:254-259 | an interface that announces more than 32 endpoints is an error, whatever follows |
| UsbCounts.TooManyInterfaces | app/src/main/cpp/libusb/descriptor.c:375-491 | and so is a configuration of more than 32 interfaces |
| Vco.FindEvenMultiples | app/src/main/cpp/Si5351C/Si5351C.cpp:412-437 | exactly the multiples by an even number from 6 to 254 that lie in the range |
| Vco.AddMultiples | app/src/main/cpp/Si5351C/Si5351C.cpp:495-501 | exactly the positive multiples of a frequency in the range are added |
| Vco.PickBest | app/src/main/cpp/Si5351C/Si5351C.cpp:505-525 | the candidate that serves most outputs, the largest of those, or 0 if there is none |
| Vco.ReserveForHighOutputs | app/src/main/cpp/Si5351C/Si5351C.cpp:387-487 | outputs 6 and 7 share PLL A if a frequency suits both, else take one PLL each |
| Vco.AssignPll | app/src/main/cpp/Si5351C/Si5351C.cpp:600-619 | every output in use without an integer divider takes this PLL; the others stay |
| Vco.FindVCO | app/src/main/cpp/Si5351C/Si5351C.cpp:385-620 | the whole plan: both frequencies best among their candidates, and every output set up from them |
| VcoTheorems.BestIsUnique | app/src/main/cpp/Si5351C/Si5351C.cpp:505-525 | a set of frequencies has only one best |
| VcoTheorems.PlanIsDetermined | app/src/main/cpp/Si5351C/Si5351C.cpp:385-620 | both frequencies of a plan are functions of the outputs and the range alone |
| VcoTheorems.OnlyOnePlan | app/src/main/cpp/Si5351C/Si5351C.cpp:385-620 | so is the set-up of every output |
| VcoTheorems.OutputsExact | app/src/main/cpp/Si5351C/Si5351C.cpp:530-619 | for every output in use: divider times frequency is the frequency of the PLL it takes, integer mode exactly when that is a multiple of its own, PLL B exactly when PLL A's is none; that PLL runs inside the range if and only if PLL A had a candidate, and otherwise the output has divider 0 on 0 Hz |
| VcoTheorems.CandidatesIff | app/src/main/cpp/Si5351C/Si5351C.cpp:402-503 | PLL A has a candidate if and only if output 6 is in use and has an even multiple in the range, or is off and one of the outputs 0 to 5 has a multiple there |
| VcoTheorems.EvenMultipleExistsIff | app/src/main/cpp/Si5351C/Si5351C.cpp:412-437 | in the chip's range, that even multiple exists if and only if the frequency is from 2.362205 to 150 MHz |
| VcoTheorems.PllRunsIff | app/src/main/cpp/Si5351C/Si5351C.cpp:778-791 | for all settings SetClock accepts: every output in use runs on a PLL within the range if and only if output 6 is off or in those bounds; otherwise none does |
| VcoTheorems.Output6StopsAll | app/src/main/cpp/Si5351C/Si5351C.cpp:468-477 | output 0 at 10 MHz and output 6 at 1 MHz: PLL A is set to 0 Hz and output 0 to integer mode with divider 0 |
| VcoTheorems.PllAServesMost | app/src/main/cpp/Si5351C/Si5351C.cpp:489-528 | with outputs 6 and 7 off, PLL A serves at least as many outputs as any frequency of the range, and is the largest that does |
| VcoTheorems.WhenCandidates | app/src/main/cpp/Si5351C/Si5351C.cpp:491-503 | there is a candidate exactly when some output 0 to 5 has a multiple in the range |
| VcoTheorems.PllBServesOne | app/src/main/cpp/Si5351C/Si5351C.cpp:552-619 | PLL B, when free, serves at least one output that PLL A left over |
| VcoLimits.RescuedByB | app/src/main/cpp/Si5351C/Si5351C.cpp:595-619 | the outputs left over that a plan puts in integer mode are exactly those PLL B's frequency is a multiple of |
| VcoLimits.ServingIsCandidate | app/src/main/cpp/Si5351C/Si5351C.cpp:552-570 | with output 7 off, every frequency of the range that serves an output left over is a candidate for PLL B |
| VcoLimits.PllBServesMostIff | app/src/main/cpp/Si5351C/Si5351C.cpp:572-592 | a plan serves as many outputs left over as any candidate would if and only if the choice is the same among the candidates that serve the most of them, both computed from the inputs |
| VcoLimits.PllBLeavesOneOver | app/src/main/cpp/Si5351C/Si5351C.cpp:572-592 | 100, 100, 90, 70 and 63 MHz: PLL A takes 900 MHz, PLL B 700 MHz, and the output at 63 MHz is left over although 630 MHz serves both |
| VcoTheorems.Output6OkIff | app/src/main/cpp/Si5351C/Si5351C.cpp:402-485 | output 6 gets an even divider from 6 to 254 if and only if the range has one |
| VcoTheorems.SharedOutput7Ok | app/src/main/cpp/Si5351C/Si5351C.cpp:452-463 | so does output 7 when both can share PLL A |
| VcoTheorems.Output7OkIff | app/src/main/cpp/Si5351C/Si5351C.cpp:438-485 | output 7 does if and only if the range has one and the frequency PLL A will take, a function of the inputs, is not a multiple of its own or is a usable one |
| VcoTheorems.BothInUseOutput7OkIff | app/src/main/cpp/Si5351C/Si5351C.cpp:452-485 | with output 6 in use and no frequency to share, if and only if the range has one and PLL A's frequency is not a multiple of its own |
| VcoTheorems.Output7LosesItsPll | app/src/main/cpp/Si5351C/Si5351C.cpp:532-549 | 90 and 100 MHz: output 7 ends up dividing PLL A by 9 |
| VcoLimits.AllDividersTakenIff | app/src/main/cpp/Si5351C/Si5351C.cpp:656-660 | ConfigureClocks takes all dividers of a plan if and only if every output in use lies between a 900th and an eighth of the frequency of the PLL it will take, a function of the inputs |
| VcoLimits.DividerTakenFor | app/src/main/cpp/Si5351C/Si5351C.cpp:656-660 | in the chip's range with PLL A running, the divider of an output from 1 to 75 MHz is always taken, and one below two thirds of a megahertz or above 112.5 MHz never |
| VcoLimits.UsableDividerRefused | app/src/main/cpp/Si5351C/Si5351C.cpp:656-660 | output 6 at 150 MHz gets the even divider 6, which is refused |
| Fractions.GreatestCommonDivisor | app/src/main/cpp/Si5351C/Si5351C.cpp:29-36 | the loop's result divides both numbers and is divided by whatever divides both |
| Fractions.RealToFrac | app/src/main/cpp/Si5351C/Si5351C.cpp:23-40 | A + B/C in lowest terms within 2^-21 of the divider; C is the full 2^20 exactly when the rounded numerator is odd |
| Fractions.RegisterValues | app/src/main/cpp/Si5351C/Si5351C.cpp:666-668 | P2 below P3, and (P1 + 512)·P3 + P2 = 128·(A·C + B) |
| Fractions.RegistersMeanDivider | app/src/main/cpp/Si5351C/Si5351C.cpp:666-668 | (P1 + 512 + P2/P3) / 128 is the divider |
| CrcPolynomial.StepLinear | app/src/main/cpp/getRTCM3Eph.c:102-109 | a register step is linear |
| CrcPolynomial.DirectRunsAhead | app/src/main/cpp/getRTCM3Eph.c:102-109 | feeding bits at the top of the register is dividing, 24 steps ahead |
| CrcPolynomial.CheckIsRemainder | app/src/main/cpp/getRTCM3Eph.c:102-109 | the check of any bit string is the remainder of long division by 0x1864CFB with 24 zeros appended |
| CrcPolynomial.TestIsDivisibility | app/src/main/cpp/getRTCM3Eph.c:311 | the receiver's comparison holds if and only if the whole frame is a multiple of the generator |
| CrcPolynomial.BurstDetected | app/src/main/cpp/getRTCM3Eph.c:311 | two different strings that differ only within 24 consecutive bits are never both multiples |
| CrcTable.TableIsRight | app/src/main/cpp/getRTCM3Eph.c:21-54 | all 256 entries are eight register steps of their index |
| CrcTable.ByteStep | app/src/main/cpp/getRTCM3Eph.c:107 | one table lookup does the work of eight bits |
| CrcTable.Crc24q | app/src/main/cpp/getRTCM3Eph.c:102-109 | on every byte string the table-driven loop computes what the bit-by-bit register computes |
| Rtcm3.GetBitU | app/src/main/cpp/getRTCM3Eph.c:94-100 | the unsigned number a field of bits spells, in a 32-bit word |
| Rtcm3.GetBits | app/src/main/cpp/getRTCM3Eph.c:88-93 | the two's complement number it spells, up to 32 bits |
| Rtcm3.FramesOfFrame | app/src/main/cpp/getRTCM3Eph.c:302-317 | a whole frame is handed over exactly when it passes, and reading goes on behind it |
| Rtcm3.StreamHandsOver | app/src/main/cpp/getRTCM3Eph.c:294-318 | a stream of whole frames with filler between hands over exactly the undamaged frames, in order, with nothing left |
| Rtcm3.BurstRejected | app/src/main/cpp/getRTCM3Eph.c:310-313 | a frame with an error burst of up to 24 bits behind its header is never handed over |
| Rtcm3Receiver.ParityHolds | app/src/main/cpp/getRTCM3Eph.c:310-313 | the comparison accepts exactly the multiples of the generator |
| Rtcm3Receiver.InsideIff | app/src/main/cpp/getRTCM3Eph.c:293-311 | for all bytes collected and to come and every length on entry: every place of the array the loop touches lies inside it if and only if no byte comes, or fewer than three are collected, or the length is not negative and at most 1197 or not reached within the array |
| Rtcm3Receiver.IndexLeavesArray | app/src/main/cpp/getRTCM3Eph.c:302-311 | three bytes collected and 1198 to come: the index leaves the array with the length 1198 and with a negative one, and stays inside with 1197 |
| Rtcm3Receiver.Receive | app/src/main/cpp/getRTCM3Eph.c:293-317 | for every received buffer, whatever is collected and for every length on entry with which the index stays inside the array: the frames handed over are those the loop finds, in order, up to the one that completes 32 satellites; the index never passes 1029 if fewer than three bytes are collected or the length is one a frame can have |
| Rtcm3Splits.LoopedIsFrames | app/src/main/cpp/getRTCM3Eph.c:293-317 | with the right length on entry the loop finds exactly the frames the bytes hold, and ends with the right length again |
| Rtcm3Splits.FramesAppend | app/src/main/cpp/getRTCM3Eph.c:293-317 | the frames of a stream are those of its beginning and then those of what that leaves collected with the rest behind it |
| Rtcm3Splits.CollectedIsFrames | app/src/main/cpp/getRTCM3Eph.c:286-321 | however a stream is cut into received buffers, a run that keeps the length stays inside the array and hands over exactly the frames of the whole stream |
| Rtcm3Splits.UnchangedIsKept | app/src/main/cpp/getRTCM3Eph.c:293 | a variable that holds its value from one received buffer to the next is enough for that |
| Rtcm3Splits.ReceiveAll | app/src/main/cpp/getRTCM3Eph.c:280-321 | the receive loop over any buffers, for all lengths on entry that keep the index inside the array (the first can be any value): it hands over what the runs of the inner loop find, up to 32 satellites; if the length is kept, the frames of the whole stream |
| Rtcm3Splits.TakenAtLength | app/src/main/cpp/getRTCM3Eph.c:302-311 | behind its third byte a frame is taken at whatever length is remembered, but not before one more byte |
| Rtcm3Splits.SplitFrameIff | app/src/main/cpp/getRTCM3Eph.c:293 | a good frame cut anywhere behind its third byte is handed over if and only if the length on entry to the second part is its own |
| Rtcm3Splits.EarlySplit | app/src/main/cpp/getRTCM3Eph.c:299-304 | a good frame cut before that is handed over with any length |
| Rtcm3Splits.LostBehindHeader | app/src/main/cpp/getRTCM3Eph.c:293 | whatever its payload, a frame cut behind its header is lost if the length reads 0 |
| Rtcm3Receiver.MadeFramePasses | app/src/main/cpp/getRTCM3Eph.c:302-313 | every frame a sender builds is whole, passes, and carries its payload |
| FpgaPacket.PackLayout | app/src/main/cpp/FPGA_common/FPGA_common.cpp:516-518 | the three bytes are one 24-bit number, least significant byte first: the low 12 bits of I below those of Q |
| FpgaPacket.PayloadLayout | app/src/main/cpp/FPGA_common/FPGA_common.cpp:509-527 | bytes 3k to 3k + 2 of a packet are sample k as that number, least significant byte first |
| FpgaPacket.PackThenUnpack | app/src/main/cpp/FPGA_common/FPGA_common.cpp:516-518 | unpacking undoes packing if and only if both components are in [-2048, 2047] |
| FpgaPacket.UnpackThenPack | app/src/main/cpp/FPGA_common/FPGA_common.cpp:468-476 | packing undoes unpacking on every three bytes |
| FpgaPacket.PayloadThenSamples | app/src/main/cpp/FPGA_common/FPGA_common.cpp:460-491 | the same for packets of any length, if and only if every component fits |
| FpgaPacket.SamplesThenPayload | app/src/main/cpp/FPGA_common/FPGA_common.cpp:509-527 | and for every buffer of whole samples |
| FpgaPacket.SentInjective | app/src/main/cpp/FPGA_common/FPGA_common.cpp:519-524 | two interleaved channels come apart in only one way |
| FpgaPayload.Samples2Payload | app/src/main/cpp/FPGA_common/FPGA_common.cpp:509-527 | exactly 3 or 6 bytes per sample, the packed samples in order, the rest of the buffer untouched |
| FpgaPayload.Payload2Samples | app/src/main/cpp/FPGA_common/FPGA_common.cpp:460-491 | the samples the bytes hold, for one channel or two, the rest of both arrays untouched |
| FpgaPayload.RoundTrip | app/src/main/cpp/FPGA_common/FPGA_common.cpp:460-527 | each channel gets its own samples back if and only if they all fit 12 bits |
| ConnectionHandle.Trim | app/src/main/cpp/ConnectionRegistry/ConnectionHandle.cpp:20-26 | no white space is left at either end |
| ConnectionHandle.SpaceIff | app/src/main/cpp/ConnectionRegistry/ConnectionHandle.cpp:20-26 | white space is tab, line feed, vertical tab, form feed, carriage return and blank |
| ConnectionHandle.ArgsToMap | app/src/main/cpp/ConnectionRegistry/ConnectionHandle.cpp:28-59 | the character loop is the fold over the text, key kept while the value is empty |
| ConnectionHandle.Connection.FromText | app/src/main/cpp/ConnectionRegistry/ConnectionHandle.cpp:70-84 | the fields the pairs give, defaults for the others |
| ConnectionHandle.Connection.Serialize | app/src/main/cpp/ConnectionRegistry/ConnectionHandle.cpp:86-104 | the text with all fields that are not default |
| HandleRoundTrip.PrintedRoundTrip | app/src/main/cpp/ConnectionRegistry/ConnectionHandle.cpp:96 | a printed index reads back as itself, negative ones too |
| HandleRoundTrip.ScanEntries | app/src/main/cpp/ConnectionRegistry/ConnectionHandle.cpp:33-57 | a value and any entries behind it give exactly those pairs |
| HandleRoundTrip.ScanJoined | app/src/main/cpp/ConnectionRegistry/ConnectionHandle.cpp:48 | without a value before it, the first entry's key is joined to the key before |
| HandleRoundTrip.NamedRoundTrip | app/src/main/cpp/ConnectionRegistry/ConnectionHandle.cpp:70-104 | every handle with a name, trimmed comma-free fields and a 32-bit index is restored from its text |
| HandleRoundTrip.ParsedIsGood | app/src/main/cpp/ConnectionRegistry/ConnectionHandle.cpp:45-57 | whatever the text, the fields read from it are trimmed and have no comma |
| HandleRoundTrip.RoundTripIff | app/src/main/cpp/ConnectionRegistry/ConnectionHandle.cpp:70-104 | every handle with a 32-bit index is restored from its text if and only if its fields are trimmed and free of commas and it has a name or is all defaults |
| HandleRoundTrip.FullText | app/src/main/cpp/ConnectionRegistry/ConnectionHandle.cpp:86-104 | the text of a handle with all its fields, letter by letter, and back |

## Left out

- Rounding of float and double: LU, coefficients, code phase, dividers and the calendar are over exact reals, so C's
  rounding, overflow and NaN are not modelled; the calendar's three constants are exact.
- Lu.Ludcmp: allocation failure is not modelled; the error exit at a zero row is the result `ok`.
- NavMessage.Channel.GenerateNavMsg: what eph2sbf puts into the subframes is an input; only its shape (30 bits, empty
  TOW and week fields) is used.
- NavRun.PlayRun: a start off the whole second; a first call in the last half second of a frame is for the frame that
  comes. One channel is followed, and which subframes are in force at each call is an input.
- CodePhase.FillBuffer: ranges, gains and the sine tables are inputs; a code step of 1023 chips or more per sample, or a
  buffer longer than the message, is outside what it states; the accumulators do not overflow 32 bits.
- SendingRun.SendRun: one channel is followed; its ranges, gains and carrier steps are inputs. Ranges under a metre, over
  six light seconds, or changing by half the speed of light or more are outside what it states.
- Allocator.Channels.AllocateChannel: visibility is an input; the other fields set up for a new channel (code, message,
  range, carrier phase) are left out, the message being the part NavMessage models.
- Calendar.DateRoundTrip: dates before 6 January 1980 are left out, where C's division of negative numbers differs.
- FifoProtocol.RunSafe: liveness is not stated, because the producer signals without the lock; memory is sequentially
  consistent and each sample is copied whole. The ring size is any multiple of the block size from two blocks on
  (app/src/main/cpp/lime/playback.h 32-34 takes two).
- Fifo.SampleFifo.Write: the waiting and signalling around it.
- UsbParser.UsbiParseDescriptor: host_endian and the alignment of the destination pointer; words are little-endian as on
  the Android targets, and fields are stored in order without padding.
- UsbParser.ParseConfiguration: structures are returned as values instead of filled through pointers; allocation
  failures, the log, and padding between C fields are left out; words are little-endian as on the Android targets, so
  host_endian makes no difference.
- UsbRoundTrip.ConfigRoundTrip: descriptors longer than 9 bytes, whose extra bytes the parsers drop, have no printed
  form here.
- VcoLimits.AllDividersTakenIff: the other tests of ConfigureClocks, on feedback dividers, even dividers and outputs above
  150 MHz.
- Vco.FindVCO: the feedback dividers of both PLLs are left out; frequencies do not overflow `unsigned long`; the
  frequency of an output 0 to 5 must be positive when output 6 is off, since the source divides by it.
- Fractions.RealToFrac: negative dividers, which no caller makes.
- Fractions.RegisterValues: the register bytes; a denominator of 2^20 does not fit the 20-bit field, and RealToFrac says
  exactly when it arises.
- Rtcm3Receiver.Receive: what happens once the index has left the array; sums with a length near the largest 32-bit
  number do not overflow; decode_rtcm3 is any function of the frames handed over so far.
- FpgaPayload.Payload2Samples: the uncompressed packet format, which copies words.
- HandleRoundTrip.RoundTripIff: an index beyond 32 bits, which atoi does not promise to read; the branch for systems other
  than Unix.
- Orbits, ranges, ionosphere and the antenna: transcendental floating point.
- Files, sockets, JNI, threads and the multi-threaded generator (`runCore2`), which does not follow the sequential loop.
- The chip drivers and USB transfers: calls into code that is not part of the repository.
- The PLL phase search of FPGA_common.cpp: hardware timeouts.
