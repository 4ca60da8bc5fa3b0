# Signal-processing chain: verified model

A Dafny model of the wideband channelizer: VITA 49 framing in, mixing and
multi-stage decimation, narrowband packets out, and the Fourier transform the
measurements use. What the code updates in place is a class or an array
algorithm here, proved against a pure step function; the laws are then proved
about runs of those functions, for every input.

| file | models |
|---|---|
| `Fft.dfy`, `BitReversal.dfy`, `Complex.dfy` | the in-place radix-2 transform |
| `Fir.dfy`, `FirDesign.dfy`, `Cascade.dfy` | the ring-buffer decimating filter, its design, chains of it |
| `Mixer.dfy`, `Decimator.dfy` | the oscillator and the channelizer |
| `Planner.dfy`, `PlanLimits.dfy`, `Primes.dfy` | the greedy stage planner, and the exact limits of its promises |
| `Samples.dfy`, `Bytes.dfy`, `Vita49.dfy`, `Vectors.dfy` | sc16 samples, big-endian words, packets, cursor, streams |
| `Gaps.dfy`, `Timeline.dfy`, `Pipeline.dfy`, `Metering.dfy`, `Service.dfy` | gap tracking, the output timeline and its packets, the measurement window, the service |
| `Downstream.dfy` | the next hop, reading what the service sends |
| `Numerics.dfy` | finite sums, division, powers of two |

Main results:

- `Fft.FftInPlace`: the iterative butterflies over the bit-reversed array leave
  the transform sum in every slot.
- `Decimator.ChannelizerIsLinear`, `Decimator.SettlingForgets`,
  `Decimator.ToneSurvives`: the whole chain is one decimating linear map of the
  ideally mixed input, it forgets after its settling time, and a tone at the
  channel's offset comes out standing still at full level.
- `Planner.PlannerContract`, `PlanLimits.BudgetExactly`,
  `PlanLimits.OrderedExactly`, `Planner.ProtectedExactly`: which ratios have a
  plan and exactly which tap budget is enough for all of them, exactly when stage
  factors never increase, and exactly when the cascade protects its channel from
  aliases.
- `Vita49.ParseInvertsLayout`, `Vita49.BuildParse`, `Vita49.TimestampExact`,
  `Vectors.StreamEndToEnd`: framing round trips, each with the exact condition
  under which it holds.
- `Pipeline.PacketsOfRun`, `Pipeline.OutputClock`, `Pipeline.CutAnywhere`,
  `Pipeline.SplitInvariance`, `Service.StreamThrough`: the output packets tile the
  timeline around the gaps, the output clock's drift is bounded at every point of
  every run, and how the input was cut into datagrams leaves no trace, gaps or
  none.
- `Metering.MeasuredOnceSettled`: nothing is measured before the samples in reach
  the settling figure, and exactly the output from the datagram that reached it
  on.
- `Downstream.NextHop`, `Downstream.NextHopAfterLoss`: what the next hop reads
  back, and that what it finds missing is exactly what was lost.

Conventions:

- f32 and f64 are exact reals; `usize` is 64 bits, and its unchecked sums and
  products wrap, as release builds compile them. Casts from float to unsigned
  saturate as the language defines them; the 16-bit size field wraps.
- Cosine, sine and pi are a parameter with the laws in `Complex.Lawful` (angle
  addition, the half turn, parity). The Bessel function is a positive function,
  square root and power are arbitrary functions.
- The planner keeps the 1e-9 allowance of its two rate comparisons.
- Single-bit `&`, `|` and `^` are written as arithmetic on that bit.
- The sink is a recorder with an arbitrary rule for which sends the transport
  loses, so it stands for both the collecting sink and the UDP forwarder.

Where code and documentation disagree the model follows the code:

- The packet size field's comment promises `total_words - 1`; the cast keeps only
  16 bits of it, so packets of more than 65531 samples do not parse
  (`Vita49.BuildParse`).
- Timestamps are described as rounded to the nearest sample; a time less than half
  a sample before zero is stored one second late, because its floor saturates and
  the carry is then added (`Vita49.TimestampExact`).
- The replay loop's comment says a corrupt packet does not hide the rest of a
  file; the cursor ends the walk there (`Vita49.WalkPartitions`,
  `Vita49.ErrorFreeExactly`).
- The parser's "trailer" test reads header bits 25-24.
- The stopband must not exceed half the output rate, but the allowance admits up
  to 1e-9 Hz more; alias protection holds exactly up to the half
  (`Planner.ProtectedExactly`), and an accepted request beyond it is not protected
  (`PlanLimits.AcceptedGap`).
- The allowance also admits, below 1e-8 Hz, requests whose stage factors increase
  (`PlanLimits.AcceptedOrderBreaks`); `PlanLimits.OrderedExactly` says for which.

## Model

| member | source | states |
|---|---|---|
| `BitReversal.Rev` | common/src/dsp/fft.rs:31-44 | the p-bit reversal stays inside a table of 2^p entries |
| `BitReversal.RevBits` | common/src/dsp/fft.rs:31-44 | bit k of the reversal of i is bit p-1-k of i, which is what the recursion is for |
| `BitReversal.RevInvolution` | common/src/dsp/fft.rs:31-44 | reversing twice gives the index back, so swapping each pair once is a permutation |
| `BitReversal.AdvanceReversed` | common/src/dsp/fft.rs:33-39 | one tick of the carry-from-the-top counter takes the reversal of i to the reversal of i+1 |
| `BitReversal.SwapStep` | common/src/dsp/fft.rs:40-43 | swapping only when i < j leaves each pair swapped exactly once, whichever of its two indices comes first |
| `BitReversal.PermuteBitReversed` | common/src/dsp/fft.rs:31-44 | every slot ends with the element that was at its reversed index, in both arrays, for every length 2^p |
| `Complex.CisPow` | common/src/dsp/fft.rs:49-50 | n equal rotations are one rotation n times as far, from the angle-addition laws alone |
| `Fft.EvalSplit` | common/src/dsp/fft.rs:46-73 | a polynomial is its even part at z^2 plus z times its odd part at z^2 |
| `Fft.BlockElements` | common/src/dsp/fft.rs:31-44 | block b of q even/odd splittings holds the input elements congruent to the reversal of b, in order |
| `Fft.RootLaws` | common/src/dsp/fft.rs:49-51 | the twiddle of a pass squares to that of the pass before, and half a block of it is -1 |
| `Fft.ButterflyMeaning` | common/src/dsp/fft.rs:56-64 | the sum and the difference are the longer transform at k and at k + half |
| `Fft.Butterfly` | common/src/dsp/fft.rs:57-64 | one butterfly replaces its two slots by that sum and difference and touches no other |
| `Fft.MergeBlock` | common/src/dsp/fft.rs:53-69 | the inner loop with its running twiddle turns two half-length transforms into one, leaving other blocks alone |
| `Fft.Pass` | common/src/dsp/fft.rs:48-72 | one pass completes every block of its length |
| `Fft.EvalIsDft` | common/src/dsp/fft.rs:15-15 | the polynomial at powers of the twiddle is the transform sum with its cosines and sines written out |
| `Fft.FftInPlace` | common/src/dsp/fft.rs:20-74 | slot k ends as the sum over n of x[n] e^(-j 2 pi k n / N), for every power-of-two length and for lengths 0 and 1 |
| `FirDesign.EstimateTaps` | common/src/dsp/fir.rs:54-68 | always odd, at least 3, at most the word size, refusals included |
| `FirDesign.EstimateIsTight` | common/src/dsp/fir.rs:58-67 | the estimate is the odd number between two and four taps above (A - 8) rate / (4.57 pi transition), and gives up exactly when that figure is not above minus one or exceeds 2^63 |
| `FirDesign.NarrowerCostsMore` | common/src/dsp/fir.rs:47-68 | a transition that is narrower relative to its rate never costs fewer taps, for any attenuation target |
| `FirDesign.LowpassSymmetric` | common/src/dsp/fir.rs:87-100 | the taps read the same from both ends (linear phase) |
| `FirDesign.LowpassGain` | common/src/dsp/fir.rs:103-110 | the taps sum to one exactly when the windowed response has a non-zero sum, and to zero otherwise |
| `FirDesign.KaiserLowpass` | common/src/dsp/fir.rs:74-111 | the taps stand to the centre tap as sin(2 pi fc k) / (pi k) under the Kaiser window stands to 2 fc, fc being cutoff over rate within its limits and beta by the three ranges of attenuation; unscaled when their sum is zero |
| `FirDesign.LowpassShape` | common/src/dsp/fir.rs:80-99 | the same of the taps every planned stage is built with |
| `Fir.FirDecimator.constructor` | common/src/dsp/fir.rs:131-142 | a new filter is silent and at phase zero |
| `Fir.FirDecimator.Store` | common/src/dsp/fir.rs:147-151 | writing at the ring position shifts the sample into the delay line, newest first |
| `Fir.FirDecimator.TapSum` | common/src/dsp/fir.rs:159-171 | the backwards walk pairs each tap with the sample of its age |
| `Fir.FirDecimator.Process` | common/src/dsp/fir.rs:146-172 | one call is one step of the pure filter: the state it leaves and what it emits |
| `Fir.FirDecimator.Reset` | common/src/dsp/fir.rs:176-180 | back to the state of a new filter |
| `Fir.LineAfter` | common/src/dsp/fir.rs:146-151 | after any run the delay line is the latest inputs, newest first, then what it held before |
| `Fir.CountAfter` | common/src/dsp/fir.rs:153-157 | a run emits once every factor inputs and no other time |
| `Fir.RunConvolves` | common/src/dsp/fir.rs:146-172 | output m of any run, from any delay line and phase, is the convolution at the input time it appears |
| `Fir.FreshRunConvolves` | common/src/dsp/fir.rs:131-172 | a new filter's output m is the sum of taps[k] x[(m+1) factor - 1 - k] with x zero before the start, and there are floor(n / factor) outputs |
| `Cascade.RunAllIsStageWise` | common/src/dsp/decimator.rs:273-284 | stepping all stages sample by sample equals running them one after another over the whole input |
| `Cascade.FreshCount` | common/src/dsp/decimator.rs:221-223 | the stages' floors compose: n inputs give floor(n / D) outputs, D the product of the factors |
| `Cascade.ComposeConvolves` | common/src/dsp/decimator.rs:273-284 | filtering with the composed taps is filtering with t and then with h spread out by the decimation between |
| `Cascade.CascadeConvolves` | common/src/dsp/decimator.rs:273-284 | a fresh cascade's output m is the composite filter over the input at (m+1) D - 1: any number of stages is one long filter |
| `Cascade.CompositeGain` | common/src/dsp/fir.rs:103-110 | gains multiply, so unity-gain stages make a unity-gain composite |
| `Cascade.CompositeSettles` | common/src/dsp/decimator.rs:225-245 | the settling time is no shorter than the composite filter |
| `Cascade.ConstantPasses` | common/src/dsp/decimator.rs:225-284 | from the settling time on a constant comes out unchanged |
| `Cascade.ChainForgets` | common/src/dsp/decimator.rs:225-245 | two chains at equal phases with any delay-line contents, fed inputs that agree from sample a on, emit the same after a + settling inputs |
| `Mixer.RemEuclidUnique` | common/src/dsp/nco.rs:31-32 | the remainder is the only value in [0, tau) a whole number of turns away |
| `Mixer.PhaseIsIdeal` | common/src/dsp/nco.rs:44-51 | the running phase never leaves [0, tau) and after n samples equals n times the unreduced step modulo a turn |
| `Mixer.MixIsIdeal` | common/src/dsp/nco.rs:30-60 | sample n is turned back by exactly 2 pi offset n / rate, however the phase was wrapped on the way, and passes unturned without a positive rate |
| `Mixer.PhaseInc` | common/src/dsp/nco.rs:30-40 | the increment lies in [0, 2 pi), is a whole number of turns from 2 pi offset / rate, and is zero for a non-positive rate |
| `Mixer.RotateIsConjugate` | common/src/dsp/nco.rs:56-60 | the mixer multiplies by the conjugate phasor |
| `Mixer.ToneToDc` | common/src/dsp/nco.rs:3-6 | a tone turned back by its own angle stands still at full level |
| `Mixer.Nco.constructor` | common/src/dsp/nco.rs:30-40 | phase zero, and the increment of `Mixer.PhaseInc` |
| `Mixer.Nco.NextPhasor` | common/src/dsp/nco.rs:44-51 | returns the phasor of the old phase and advances by one increment, dropping a turn at most |
| `Mixer.Nco.Mix` | common/src/dsp/nco.rs:56-60 | turns the sample by the old phase and advances |
| `Decimator.LockstepStep` | common/src/dsp/decimator.rs:276-280 | the I and Q filters of every stage keep equal phases and emit together, so the early return never splits them |
| `Decimator.RunAppend` | common/src/dsp/decimator.rs:28-32 | block boundaries are invisible: a run over two blocks is a run over their concatenation |
| `Decimator.RunSplits` | common/src/dsp/decimator.rs:273-284 | a run mixes and then sends the real and imaginary parts through the same cascade independently |
| `Decimator.OutputsPerInput` | common/src/dsp/decimator.rs:221-223 | n samples into a fresh channelizer give floor(n / D) outputs |
| `Decimator.ChannelizerIsLinear` | common/src/dsp/decimator.rs:273-284 | output m of a fresh channelizer is the composite filter over the mixed input at (m+1) D - 1, in both components |
| `Decimator.MixedIsIdeal` | common/src/dsp/nco.rs:30-60 | the mixed input is the input turned back by 2 pi offset n / rate, and the input itself without a positive rate |
| `Decimator.SettlingForgets` | common/src/dsp/decimator.rs:225-245 | start-up contents and old inputs do not reach any output after the settling time |
| `Decimator.PlanFigures` | common/src/dsp/decimator.rs:221-245 | the plan's settling and decimation figures are those of the filters that realise it |
| `Decimator.PlanHasUnityGain` | common/src/dsp/decimator.rs:191-200 | every designed stage has unity gain when its windowed response can be scaled |
| `Decimator.SoundIsBuildable` | common/src/dsp/fir.rs:75-79 | every sound plan meets the filter design's assertions at every stage |
| `Decimator.PlannedChain` | channelizer/src/lib.rs:163-178 | planner and chain together: for every accepted request the chain can be built, decimates by exactly the ratio, a word, to the planned output rate, and gives one output for every ratio inputs |
| `Decimator.ToneSurvives` | common/src/dsp/decimator.rs:184-284 | the tone level (cos, sin)(2 pi offset n / rate) comes out as a constant at full level from the settling time on |
| `Decimator.Channelizer.constructor` | common/src/dsp/decimator.rs:187-208 | the chain of a plan: at every stage a Kaiser low-pass at that stage's cutoff and input rate with its tap count and factor, all fresh, none shared, the oscillator at phase zero |
| `Decimator.Channelizer.Decimation` | common/src/dsp/decimator.rs:221-223 | the loop's product is the decimation of the filters, wrapped at the word size, so exactly that when it is a word |
| `Decimator.Channelizer.SettlingSamples` | common/src/dsp/decimator.rs:235-245 | the loop with its saturating product and wrapping total gives the settling time that bounds the chain's memory if and only if that is a word |
| `Decimator.SettlingExactly` | common/src/dsp/decimator.rs:235-245 | of every plan with positive factors and tap counts, the word figure is the settling time if and only if that is a word |
| `PlanLimits.AcceptedSettlingOverflows` | common/src/dsp/decimator.rs:235-245 | an accepted request, 2^63 Hz to 1 Hz, whose settling time is not a word and comes out wrong |
| `PlanLimits.SettlingAtLeast` | common/src/dsp/decimator.rs:235-245 | the settling time of every sound plan is at least a sixteenth of the ratio times what a last stage of factor two costs |
| `Decimator.Channelizer.RunStages` | common/src/dsp/decimator.rs:275-283 | the loop over the stages with its early exit is one cascade step of both components |
| `Decimator.Channelizer.ProcessSample` | common/src/dsp/decimator.rs:273-284 | one sample is one step of the pure machine |
| `Decimator.Channelizer.ProcessIq` | common/src/dsp/decimator.rs:263-269 | a block appends exactly the outputs of a run and leaves its final state |
| `Decimator.Channelizer.Process` | common/src/dsp/decimator.rs:249-259 | interleaved wire samples append exactly the outputs of a run and leave its final state, an unpaired last one ignored |
| `Planner.SearchIsGreedy` | common/src/dsp/decimator.rs:108-147 | the factor loop finds the largest usable factor, and refuses only when there is none |
| `Planner.AcceptedExactly` | common/src/dsp/decimator.rs:72-101 | the checks pass, for one ratio only, exactly when rates and band are in order, the stopband is within the output half-band and the rates' quotient is within the allowance of that whole number |
| `Planner.RefusedExactly` | common/src/dsp/decimator.rs:72-101 | which fault a refused request is refused for: the first, in order; fractional exactly when no whole number is within a billionth of the quotient |
| `Planner.PlanStages` | common/src/dsp/decimator.rs:64-168 | the two nested loops return the greedy plan, or the error of the check or stage that failed |
| `Planner.PlansAreSound` | common/src/dsp/decimator.rs:105-163 | rates are unit times remainder all along, cutoffs are mid-band, taps are the estimate, odd, at least 3 and within budget, stopbands keep aliases off the channel |
| `Planner.SoundProduct` | common/src/dsp/decimator.rs:165-166 | the factors multiply to the ratio |
| `Planner.SoundChain` | common/src/dsp/decimator.rs:160-162 | consecutive stages meet; the last ends at the output rate |
| `Planner.TransitionRefusal` | common/src/dsp/decimator.rs:114-127 | the no-transition refusal happens exactly for a non-last stage whose output rate is at most stopband plus passband |
| `Planner.TransitionAlwaysLeft` | common/src/dsp/decimator.rs:121-127 | the no-transition refusal is unreachable when twice the output rate exceeds stopband plus passband |
| `Planner.TransitionExactly` | common/src/dsp/decimator.rs:121-127 | no factor of any remainder is refused for want of a transition if and only if stopband plus passband is below twice the output rate |
| `Planner.AcceptedHasRoom` | common/src/dsp/decimator.rs:72-99 | every accepted request with an output rate of at least 1e-8 Hz keeps stopband plus passband below twice the planned rate and three halves of the stopband within it, rounding allowance included |
| `Planner.TransitionCanBeRefused` | common/src/dsp/decimator.rs:81-127 | an accepted request below 1e-8 Hz whose largest factor is refused for want of a transition |
| `Planner.FailuresAreExplained` | common/src/dsp/decimator.rs:148-158 | a failure names a remainder of the ratio that no factor can take on, with the true reason against its smallest divisor, and no reason exactly when nothing from 2 to 16 divides it |
| `Planner.GreedyIsIncomplete` | common/src/dsp/decimator.rs:106-163 | under a binding budget the greedy choice can fail though a sound plan exists: ratio 42 within 120 taps |
| `Planner.UsableLaterUsableNow` | common/src/dsp/decimator.rs:108-147 | where a stage that leaves a factor of two has as much room for its rate as the last stage, a factor refused at one stage, for any reason, is refused at the next, the last stage included |
| `Planner.FactorsNeverIncrease` | common/src/dsp/decimator.rs:106-147 | where a stage that leaves a factor of two has as much room for its rate as the last stage, and where no remainder up to sixteen leaves a transition, no stage decimates by more than the one before, under any tap budget |
| `PlanLimits.OrderedExactly` | common/src/dsp/decimator.rs:106-147 | for a band and an output rate, stage factors never increase if and only if a stage that leaves a factor of two has that room or no remainder up to sixteen leaves a transition; otherwise some ratio, attenuation and budget give a plan that goes 2, 13 or 2, 16 |
| `PlanLimits.IncreasingPlan` | common/src/dsp/decimator.rs:106-147 | for every band and rate beyond the two conditions, the ratio, attenuation and budget of a plan whose factors increase |
| `PlanLimits.AcceptedOrderBreaks` | common/src/dsp/decimator.rs:81-99 | an accepted request, 26 nano-hertz to one, with a plan whose factors increase |
| `Primes.PrimeDividesCofactor` | common/src/dsp/decimator.rs:105-163 | Euclid's lemma for a prime larger than the stage factor |
| `Planner.PlannedRatiosAreSmooth` | common/src/dsp/decimator.rs:105-158 | a plan exists only for ratios without a prime factor above 13, under any budget |
| `Planner.SmoothRatiosArePlanned` | common/src/dsp/decimator.rs:105-158 | every ratio without a prime factor above 13 has a plan under a band that leaves a remainder of two, or of five, a transition and a budget that covers the costliest factor then needed |
| `Planner.AlwaysUsable` | common/src/dsp/decimator.rs:108-147 | under such a band and budget some factor is usable at every remainder: the least prime, or the whole remainder up to sixteen |
| `PlanLimits.BudgetExactly` | common/src/dsp/decimator.rs:105-158 | where earlier stages have room, a budget is enough for every ratio without a prime factor above 13 if and only if it covers a last stage of factor 13 |
| `PlanLimits.UnlimitedExactly` | common/src/dsp/decimator.rs:105-158 | with an unlimited budget, every ratio without a prime factor above 13 has a plan if and only if stopband plus passband is below five times the output rate |
| `Planner.PlannerContract` | common/src/dsp/decimator.rs:56-168 | for every accepted request: a plan implies no prime factor above 13, the factor product and soundness; with enough band and budget every such ratio has one; with room before the last stage - always at 1e-8 Hz and more - factors never increase and a budget that covers a last stage of factor 13 is enough |
| `Planner.AliasesAreStopped` | common/src/dsp/decimator.rs:10-20 | whatever ends inside the channel never folded, or stood at or beyond the stopband edge of the last stage that folded it |
| `Planner.AliasGap` | common/src/dsp/decimator.rs:81-87 | beyond half the output rate every plan lets a frequency fold in at the last stage without reaching a stopband edge |
| `Planner.ProtectedExactly` | common/src/dsp/decimator.rs:10-20 | a plan protects its channel from aliases if and only if twice the stopband edge is within the planned output rate |
| `PlanLimits.AcceptedGap` | common/src/dsp/decimator.rs:81-99 | an accepted request, 2 Hz to 1 Hz, that has a plan and no such protection |
| `Gaps.GapTracker.Observe` | common/src/dsp/gaps.rs:47-78 | one packet is one step of the pure tracker, all five fields and the marker, and joins the history the state stands for |
| `Gaps.GapTracker.IsContiguous` | common/src/dsp/gaps.rs:101-103 | true exactly when every packet observed so far started where the one before it ended |
| `Gaps.CountersMean` | common/src/dsp/gaps.rs:47-93 | over any run, gaps, lost samples and resets are the number and size of late starts and the number of early ones |
| `Gaps.LateIsGapAt` | common/src/dsp/gaps.rs:47-78 | the late packets in order are exactly the places the gap counter counts, each once |
| `Gaps.LastMarker` | common/src/dsp/gaps.rs:61-66 | the last marker is that of the last packet to start late |
| `Gaps.CounterConservation` | common/src/dsp/gaps.rs:47-78 | where the counter stands plus all it was set back, and all that saturation clipped, is where it began plus everything carried and lost |
| `Gaps.ContiguousExactly` | common/src/dsp/gaps.rs:100-103 | the two counters are zero exactly when every packet starts where the one before ended |
| `Gaps.ResetFreeSpan` | common/src/dsp/gaps.rs:47-78 | without resets, carried plus lost samples span the counter from first to next expected, but for what saturation clipped |
| `Samples.Sc16RoundTrip` | common/src/dsp/iq.rs:44-63 | whole pairs survive conversion to normalised samples and back unchanged |
| `Samples.QuantiseNearest` | common/src/dsp/iq.rs:51-60 | quantisation is within half a step inside the range and saturates at its ends |
| `Samples.WireForm` | common/src/dsp/iq.rs:44-63 | in-phase first, both components in steps of a 32768th |
| `Bytes.ToFromBytes` | common/src/vita49.rs:97-100 | a big-endian word of enough bytes reads back as itself |
| `Bytes.ByteAt` | common/src/vita49.rs:97-100 | byte k of a word is its digit to the base 256, most significant first |
| `Bytes.PayloadRoundTrip` | common/src/vita49.rs:102-106 | components written as byte pairs read back as themselves, negative ones included |
| `Vita49.StampOfSample` | common/src/vita49.rs:85-92 | a time within half a sample of sample n stores n's second and n's place in it; the carry branch keeps the fraction below the rate |
| `Vita49.TimestampExact` | common/src/vita49.rs:77-92 | a time within half a sample of sample n reads back as n if and only if it is not negative; a time just below zero reads back one second late |
| `Vita49.StampConserves` | common/src/vita49.rs:85-92 | at any rate of at least one sample a second, whole or not, and any time: the stored pair counts the same as the seconds and the nearest samples, carrying a second exactly when those reach the whole part of the rate |
| `Vita49.StampSlow` | common/src/vita49.rs:85-92 | below one sample a second nothing carries |
| `Vita49.CounterExactly` | common/src/vita49.rs:327-329 | a counter is the whole samples of its seconds, as far as a word holds them, plus its fraction, at any rate |
| `Vita49.BuildPacket` | common/src/vita49.rs:65-109 | the buffer writes produce header, stream id, stamp and whole pairs, and nothing else |
| `Vita49.PacketWire` | common/src/vita49.rs:71-106 | the packet byte by byte: 0x10 0xD0 (type, seconds kind, fraction kind, nothing else), words less one, no stream id, and each component modulo 2^16, high byte first |
| `Vita49.WritePayload` | common/src/vita49.rs:102-106 | the payload loop fills exactly the bytes after the header |
| `Vita49.BuildParse` | common/src/vita49.rs:381-410 | building then parsing returns every pair and the stamp if and only if the packet holds at most 65531 samples; beyond that the size field has wrapped and the parser reports a mismatch |
| `Vita49.ParseInvertsLayout` | common/src/vita49.rs:381-410 | a buffer parses to a packet if and only if it is that packet laid out field by field, with anything in the bits that are not read |
| `Vita49.ParseExactly` | common/src/vita49.rs:381-410 | byte by byte: the first fault a buffer has, in order, with its figures, or its fields |
| `Vita49.PacketCursor.NextSlice` | common/src/vita49.rs:441-462 | the next slice is the declared prefix of what is left; a framing error exhausts the buffer |
| `Vita49.PacketCursor.NextPacket` | common/src/vita49.rs:465-486 | the next packet is the next slice, parsed; a framing error exhausts the buffer |
| `Vita49.WalkPartitions` | common/src/vita49.rs:412-462 | on arbitrary bytes the slices are consecutive and with the unread tail they are the buffer; there is a tail exactly when there was an error |
| `Vita49.ErrorFreeExactly` | common/src/vita49.rs:412-462 | a walk meets no error if and only if the buffer is slices that declare their own lengths, joined, with at least 20 bytes left at the start of each; they are then what it yields |
| `Vita49.WalkStopsExactly` | common/src/vita49.rs:441-462 | a walk ends early on fewer than twenty bytes left or on a packet that declares more than is left, and reports which with the figures |
| `Vita49.SliceNeverMismatches` | common/src/vita49.rs:394-400 | the parser never finds the length of a yielded slice wrong |
| `Vita49.WalkOfPackets` | common/src/vita49.rs:412-462 | packets that declare their own length survive concatenation: the walk yields each and nothing else |
| `Vita49.WalkBuffer` | channelizer/src/main.rs:188-217 | driving the cursor to its end yields the walk and at most one error, with nothing after it |
| `Vectors.Vita49Stream` | common/src/vectors.rs:79-104 | the chunk loop appends the stream's packets in order and counts them |
| `Vectors.ChunkReads` | common/src/vectors.rs:93-101 | one framed chunk reads back as itself at its own sample number |
| `Vectors.CarriedCounters` | common/src/vectors.rs:74-76 | packet k is numbered k full packets after the first and the next starts where it ends |
| `Vectors.StreamEndToEnd` | common/src/vectors.rs:71-104 | walking a stream gives no error, no leftover, every sample in order, every counter start plus samples so far, and a tracker with no gap and no reset |
| `Timeline.PacketsTile` | channelizer/src/lib.rs:313-322 | the packets of a timeline hold 1 to 1024 consecutive instants, short only before a hole or the end, in order, covering exactly the samples, their payloads joined being all of them |
| `Timeline.SampleExtends` | channelizer/src/lib.rs:313-322 | a sample joins the last packet while that is open and otherwise starts one at its own index |
| `Timeline.SendingSample` | channelizer/src/lib.rs:313-322 | one more sample keeps what was sent plus what is in hand equal to the timeline cut into packets |
| `Timeline.SendingHoles` | channelizer/src/lib.rs:265-276 | after a flush a hole seals the timeline: nothing is appended across it |
| `Pipeline.RunsAreKept` | channelizer/src/lib.rs:245-302 | over every run the chain has seen exactly the accepted samples, the counters are those of the accepted packets, and each recorded gap is a hole of the fewest output samples that cover the loss, ending at its output index |
| `Pipeline.RecordsMatch` | channelizer/src/lib.rs:261-286 | over every run gap record k is that of the k-th packet to start late: its counter, the samples missing before it, and an output index up to which the timeline holds exactly what the chain made of the packets before it |
| `Pipeline.OutputClock` | channelizer/src/lib.rs:261-286 | outputs plus rounded-up losses; never behind the scaled input clock and ahead by at most one sample a gap; in input samples, less than one output behind and less than one output a gap ahead |
| `Pipeline.InputClock` | channelizer/src/lib.rs:261-294 | in reset-free runs accepted plus lost samples are the next expected counter less the first, exactly while no packet runs past the counter word |
| `Pipeline.PacketsOfRun` | channelizer/src/lib.rs:261-322 | the packets of any run carry what the chain made of the accepted samples, and none touches an instant a recorded gap skipped |
| `Pipeline.MalformedOnlyCount` | channelizer/src/lib.rs:239-257 | malformed datagrams change the malformed count and nothing else |
| `Pipeline.InputIsPayload` | channelizer/src/lib.rs:288-289 | the chain sees the joined payloads of the datagrams that parse |
| `Pipeline.ContiguousTimeline` | channelizer/src/lib.rs:10-15 | contiguous input gives an unbroken timeline: the chain's output and no hole |
| `Pipeline.SplitInvariance` | channelizer/src/lib.rs:245-335 | two cuts of one contiguous stream, malformed datagrams in between, give the same packets |
| `Pipeline.CutAnywhere` | channelizer/src/lib.rs:245-335 | in any run, with gaps, resets and malformed datagrams, cutting one datagram in two leaves timeline, recorded gaps, tracker, chain and packets as they were |
| `Pipeline.PacketsCut` | channelizer/src/lib.rs:245-335 | every packet of an integer-rate stream can be so cut at every pair |
| `Pipeline.FramedStreamChannelizes` | channelizer/src/lib.rs:245-335 | framing any samples and feeding the walk gives their channelized timeline, whatever the packet size and start |
| `Metering.MeasuredOnceSettled` | channelizer/src/lib.rs:16-20 | over every run: nothing is measured while fewer samples are in than the settling figure; then exactly the output of the datagram that reached it and of every later one, in order, in blocks of at least 4096 |
| `Metering.UnreadUntilSettled` | channelizer/src/lib.rs:16-20 | the gauges show nothing while fewer samples are in than the settling figure |
| `Metering.GaugesShowLatest` | channelizer/src/lib.rs:337-356 | each gauge shows the latest block that gave it a reading, the peak within the band on either side |
| `Service.Sink.Send` | channelizer/src/lib.rs:41-48 | every send is kept in order with its time and rate; the drop count never falls |
| `Service.ChannelizerService.constructor` | channelizer/src/lib.rs:205-225 | a new service has an empty timeline and a fresh chain |
| `Service.ChannelizerService.NoteMalformed` | channelizer/src/lib.rs:239-242 | one more malformed record, nothing else |
| `Service.ChannelizerService.FlushOutputPacket` | channelizer/src/lib.rs:358-374 | sends exactly what is in hand, quantised, with its first index over the output rate and at the output rate, and mirrors the sink's losses |
| `Service.ChannelizerService.AppendSample` | channelizer/src/lib.rs:313-322 | one sample onto the timeline with the packet invariant kept |
| `Service.ChannelizerService.ProcessInterleaved` | channelizer/src/lib.rs:306-335 | the samples' run through the chain, onto the timeline and, once settled, into the measurement window |
| `Service.ChannelizerService.MeasureProduced` | channelizer/src/lib.rs:324-332 | what was produced is collected only if the samples in, this packet included, reach the settling figure; a full window is read off whole |
| `Service.ChannelizerService.PublishMeasurements` | channelizer/src/lib.rs:337-356 | the window becomes one block and the gauges show the last reading of each kind |
| `Service.ChannelizerService.SkipGap` | channelizer/src/lib.rs:264-285 | flush, skip the fewest output samples that cover the loss, record where the output resumes |
| `Service.ChannelizerService.TrackGap` | channelizer/src/lib.rs:261-286 | the tracker's verdict and the gap counters move with the timeline |
| `Service.ChannelizerService.ProcessPacket` | channelizer/src/lib.rs:259-301 | an accepted packet is one step of the pure machine, with every counter's change |
| `Service.ChannelizerService.ProcessDatagram` | channelizer/src/lib.rs:245-302 | the state stays exactly what the datagrams fed so far determine; the outcome reports the step |
| `Service.ChannelizerService.Finish` | channelizer/src/lib.rs:388-420 | the sink holds the timeline cut into packets, quantised and stamped; ok exactly when nothing was malformed, dropped or skipped; every field of the report, the level and peak offset being the last readings and absent before settling |
| `Service.ChannelizerService.Replay` | channelizer/src/main.rs:186-218 | a file is fed slice by slice; a framing error is counted once and ends it |
| `Service.StreamThrough` | channelizer/tests/pipeline.rs:70-107 | serialise, replay, finish: the sink holds the channelized samples whatever the framing, every packet at the output rate, and the report is ok unless the transport dropped packets |
| `Downstream.SendsReadBack` | common/src/vita49.rs:65-109 | sent packets framed at the rate they were sent, an integer one, parse, carry their first index as counter, and join to the quantised samples |
| `Downstream.TrackerCounts` | common/src/dsp/gaps.rs:47-78 | over packets in order a tracker counts no reset, and as lost exactly the instants no packet covers between first and last |
| `Downstream.NextHop` | channelizer/src/lib.rs:10-15 | for any run the next hop reads every sample, sees no reset, finds missing exactly the holes of the output timeline between first packet and last, and no more gaps than the service recorded |
| `Downstream.NextHopAfterLoss` | channelizer/src/lib.rs:41-48 | whichever packets the transport loses, the rest read back, without resets, and what is found missing is exactly what no arriving packet covers |

## Left out

- Service.ChannelizerService.constructor: asks for a non-zero output rate, a real quotient by zero having no value, and that the factors multiply to a machine word, as those of every plan the planner returns do (`Decimator.PlannedChain`); beyond it the decimation that places a gap has wrapped.
- Vectors.Vita49Stream: asks for a non-zero sample rate, a real quotient by zero having no value.
- Vita49.CounterOf: does not model 64-bit overflow of the final addition; the laws about it keep counters below 2^64.
- Pipeline.OutputClock: counters are unbounded, so 64-bit wrap-around of the totals is not modelled.
- Fir.FirDecimator.Process: rounding of the f32 accumulation, as of all floating-point arithmetic, is not modelled.
- Metering.Instruments: level and peak offset of a block are arbitrary functions of it; tone estimation and dBFS levels are transcendental, and a measured block may hold samples of the packet in which the chain settled.
- Convergence of the Bessel series and the attenuation a Kaiser window reaches: analysis of real functions.
- When a single ratio has a plan under a budget below `Planner.LastStageTaps`: only soundness and the failure's reason are stated; `Planner.GreedyIsIncomplete` shows a missed plan.
- Sockets, name resolution, retry timing and logging of the forwarder, the HTTP metrics server, configuration parsing, command lines: input and output.
- Capture, the sink program's window trimming, the deterministic test signal's generator and the fused multiply-add kernels: foreign calls or elementwise arithmetic.
- Stream id, packet counter and warning windows of the forwarder: no property depends on them.
