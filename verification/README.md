# S1G physical layer and MAC: a verified model

This project models the parts of a from-scratch IEEE Std 802.11-2024 S1G (2 MHz) implementation whose
correctness is decided by code, and proves what they promise.

* **Forward error correction and the Data field** (`Bcc`, `Viterbi`, `ViterbiProofs`, `BccDistance`, `LdpcCode`, `LdpcEncoder`,
  `AnnexF`, `LdpcDecoder`, `LdpcSoundness`, `LdpcErasures`, `LdpcPpdu`, `LdpcData`, `LdpcReceive`, `Scrambler`, `Bits`, `Interleaver`,
  `Mapping`, `Geometry`, `DataField`, `DataDecoder`, `BitChain`, `Ppdu`): the convolutional code and its Viterbi decoder, the
  quasi-cyclic LDPC encoder and layered min-sum decoder, everything between PSDU and tones, and the end-to-end theorems
  `Ppdu.Transfer` and, with the signalling, `Ppdu.TransferPpdu`.
* **Signalling** (`Sig`, `SigField`, `SigVerdict`): SIG and SIG-A fields, and for one user the way from transmit
  parameters to tones and back to a verdict.
* **Wire framing** (`Ndp`, `Ampdu`, `Crc`): NDP CMAC bodies with bitmap protection, and A-MPDU aggregation with a
  resynchronising scan, and the cyclic redundancy checks as remainders.
* **The MAC engine** (`MacTypes`, `MacSpec`, `Mac`, `MacInvariant`, `MacConservation`, `MacPreflight`, `MacAcks`,
  `MacMedium`, `MacTiming`, `MacPolicy`, `MacHandshake`): the clock-injected state machine as a class whose methods are proved against functions of the state, and
  properties of all runs of those functions.
* **Two stations** (`MacEvolution`, `MacReception`, `LinkOrder`, `LinkAcks`, `Link`, `LinkExactly`, `LinkFailures`): two
  engines joined by channels that lose and damage transmissions but keep their order; frames are handed up at most once,
  and exactly once unless the 12-bit sequence number or the Ack ID misleads, with a run for each.
* **Policy and plumbing** (`Rate`, `RateControl`, `RateOutcomes`, `RateChoices`, `Filter`, `FilterLayers`, `Resampler`): the per-peer rate controller, the recursive frame
  filter and the streaming halfband resamplers.

Conventions. Bits are booleans (`true` is 1). Floating-point quantities (LLRs, probabilities, decibels, filter taps,
samples) are exact reals, code rates exact fractions; rounding is not modelled. The Viterbi sentinel for an unreached
state is a constructor of its own. Clock readings, random draws, scrambler seeds and, inside the engine, rate choices
are inputs. Fields and variables called history in the doc comments (frame ids, flight counts, logs) exist to state
properties; no decision reads them. Lemmas carry `{:induction false}` so that every induction is spelled out.

Where code and documentation differ the model follows the code.

* The size check at the queue promises that a frame can be sent at any rate the controller may pick, but it assumes the
  configured coding and the configured lowest MCS. `MacPreflight.ChoiceSafeIff` says exactly for which choices that is
  true, `SafeIffNoGap` which those are (BCC chosen where LDPC is configured fails at one MCS from 1 to 5),
  `ControlledNeverUnbuildable` proves it for the controller's choices, and `ControllerFails` gives the runs on which it fails.
* Duplicate detection drops a new frame whose 12-bit sequence number is remembered from before the wrap:
  `MacReception.DroppedIff` is the exact condition, `LinkFailures.WrapLoses` a run on which such a frame is acknowledged and
  lost. A late Ack completes another frame if their Ack IDs agree: `LinkFailures.AckCompletesIff` and `SharedLoses`.
  `LinkExactly.AckedExactlyOnce` holds on every run that meets neither.
* Frames may be queued for a source address other than the station's own, and then neither the CTS that answers an RTS
  (`MacHandshake.CtsAcceptedIff`) nor a legacy Ack (`MacHandshake.LegacyAckAcceptedIff`) is recognised.

Check the whole project with `dafny verify dfyconfig.toml` (Dafny 4.11).

## Model

| member | source | states |
|---|---|---|
| Bcc.OutputsRevealInput | crates/s2g-phy/src/bcc.rs:31-41 | from every encoder state either generator output changes with the current input, so one surviving coded bit reveals it |
| Bcc.SomeBitKept | crates/s2g-phy/src/bcc.rs:20-28 | no puncturing pattern steals both bits of a step |
| Bcc.CodeInjective | crates/s2g-phy/src/bcc.rs:44-58 | for all four rates, inputs with equal punctured code words are equal |
| Bcc.PuncturedLength | crates/s2g-phy/src/bcc.rs:63-66 | whole puncture periods of num inputs send den bits each |
| Bcc.EncodeR12 | crates/s2g-phy/src/bcc.rs:31-41 | the shift register emits, at every step, both generator outputs of the state reached |
| Bcc.Encode | crates/s2g-phy/src/bcc.rs:44-58 | the puncturing loop yields the kept bits of every step in order |
| BccDistance.Convolves | crates/s2g-phy/src/bcc.rs:31-41 | the encoder's outputs are the sums over the taps of generators 133 and 171 of the inputs at and before each step |
| BccDistance.CodesApart | crates/s2g-phy/src/bcc.rs:20-58 | code words of different terminated inputs differ in at least 10, 6, 5 or 4 places at rates 1/2, 2/3, 3/4 and 5/6, which holds the taps and the puncturing patterns to account |
| Viterbi.ViterbiDecode | crates/s2g-phy/src/bcc.rs:72-136 | forward recursion, 64-bit decision words and traceback compute the survivor of state 0, the sequence shown optimal below |
| ViterbiProofs.DecodeOptimal | crates/s2g-phy/src/bcc.rs:72-136 | for any LLRs, rate and length: the decoded sequence ends in state 0 and no other sequence that does correlates better with the LLRs |
| ViterbiProofs.DecodeTerminated | crates/s2g-phy/src/bcc.rs:72-136 | the decoded sequence always ends in state 0, also when no LLR supports it |
| ViterbiProofs.ScoreIsCorrelation | crates/s2g-phy/src/bcc.rs:72-136 | the path metric of the depunctured recursion is the correlation of the transmitted bits with the LLRs |
| ViterbiProofs.DecodeInverts | crates/s2g-phy/src/bcc.rs:72-136 | LLRs that agree in sign with the code of a terminated input decode to that input, for every rate |
| ViterbiProofs.TailTerminates | crates/s2g-phy/src/bcc.rs:72-136 | six zero bits bring the encoder back to state 0 from anywhere |
| BccDistance.ErrorsCorrected | crates/s2g-phy/src/bcc.rs:72-136 | of hard decisions, any four flipped bits at rate 1/2, two at 2/3 and 3/4 and one at 5/6 are corrected |
| LdpcCode.Build | crates/s2g-phy/src/ldpc.rs:174-205 | expanding the prototype gives, for every parity equation, exactly its variables |
| LdpcCode.AdjacentDistinct | crates/s2g-phy/src/ldpc.rs:193-204 | the variables of one check are pairwise different and in range |
| LdpcCode.AdjacentParity | crates/s2g-phy/src/ldpc.rs:193-204 | the parity over a check's variables is the block-circulant row sum, for every block size |
| LdpcCode.IsCodeword | crates/s2g-phy/src/ldpc.rs:282-286 | accepts exactly the words that satisfy every block-circulant parity equation |
| LdpcEncoder.ThreeEntryIdentity | crates/s2g-phy/src/ldpc.rs:230-257 | a first parity column with equal outer shifts and a zero in between sums to the identity, which the first parity block relies on |
| LdpcEncoder.RecurrenceIffChecks | crates/s2g-phy/src/ldpc.rs:230-279 | with dual-diagonal parity, the encoder's recurrence holds of a word if and only if all parity checks do |
| LdpcEncoder.Encode | crates/s2g-phy/src/ldpc.rs:230-279 | for every block size and dual-diagonal prototype the result starts with the information bits and satisfies every check |
| LdpcEncoder.CodewordUnique | crates/s2g-phy/src/ldpc.rs:230-279 | there is only one codeword with a given information part |
| AnnexF.PrototypesDualDiagonal | crates/s2g-phy/src/ldpc.rs:142-168 | all twelve prototypes meet the dual-diagonal condition |
| LdpcDecoder.Decode | crates/s2g-phy/src/ldpc.rs:289-347 | the layered loops over posteriors and messages compute the min-sum iteration whose messages, soundness and erasure decoding are proved below, and report failure if the limit is reached |
| LdpcDecoder.UpdateOne | crates/s2g-phy/src/ldpc.rs:308-338 | one check update in place equals the extrinsic min-sum update of posteriors and messages |
| LdpcSoundness.MessageIs | crates/s2g-phy/src/ldpc.rs:329-338 | the message to a variable is eight tenths of the least magnitude among the other values, with the product of their signs |
| LdpcSoundness.MessageToward | crates/s2g-phy/src/ldpc.rs:308-338 | a check whose other variables are on the side of a codeword sends a message on that side, zeros included |
| LdpcSoundness.SweepConserves | crates/s2g-phy/src/ldpc.rs:307-340 | every layered update keeps every posterior zero or on the transmitted bit's side |
| LdpcSoundness.DecodeSound | crates/s2g-phy/src/ldpc.rs:289-347 | if no LLR contradicts a codeword and the information LLRs are nonzero, decoding returns its information part, for every iteration limit |
| LdpcErasures.DecodePeels | crates/s2g-phy/src/ldpc.rs:289-347 | whatever erasures the checks can peel one unknown at a time within max_iter sweeps, the decoder fills in: without wrong evidence it returns the codeword and reports success |
| LdpcErasures.OneErasureDecodes | crates/s2g-phy/src/ldpc.rs:289-347 | in particular any single erasure some check covers, in one iteration or more |
| LdpcPpdu.ParamsBalanced | crates/s2g-phy/src/ldpc.rs:372-403 | for every symbol count and every MCS with n_dbps = n_cbps R: information bits sum to n_pld, transmitted bits to n_avbits = n_sym n_cbps, nothing underflows, puncturing and repetition never coexist, and the extra flag is the difference of symbol counts |
| LdpcPpdu.CodewordsChosen | crates/s2g-phy/src/ldpc.rs:376-388 | as data bits are coded bits times the rate, Table 19-16 comes to the shortest codeword that holds the coded bits, two of 1296, or as few as possible of 1944 |
| LdpcPpdu.ExtraIffSparse | crates/s2g-phy/src/ldpc.rs:389-400 | the extra symbol is spent exactly when the initial symbols fill less than nine tenths of the codewords |
| LdpcPpdu.PuncturedAtMost | crates/s2g-phy/src/ldpc.rs:389-400 | without the extra symbol at most a tenth of the parity is punctured; with it, it would have been more with shortening below 1.2 R/(1-R) times it, and exactly a symbol less remains |
| LdpcPpdu.ReceiverRebuilds | crates/s2g-phy/src/rx/decode.rs:34-43 | the receiver gets the transmitter's parameters back from symbol count and extra flag |
| LdpcPpdu.SplitTotal | crates/s2g-phy/src/ldpc.rs:411-421 | per-codeword shares add up to the total |
| LdpcPpdu.SplitBound | crates/s2g-phy/src/ldpc.rs:411-421 | no codeword's share exceeds a bound the total meets on average, so no per-codeword subtraction underflows |
| LdpcData.CodeSuits | crates/s2g-phy/src/ldpc.rs:405-409 | the code built for the parameters has their length and rate and satisfies what encoder and decoder need |
| LdpcData.PositionsClose | crates/s2g-phy/src/ldpc.rs:424-453 | segments of data and of transmitted bits tile the PPDU exactly |
| LdpcData.EncodeData | crates/s2g-phy/src/ldpc.rs:424-453 | every segment carries the kept bits of a codeword whose information part is its data and zeros, then the repetition |
| LdpcReceive.DecodeData | crates/s2g-phy/src/ldpc.rs:457-495 | the placing, combining and collecting loops decode each segment from its own LLRs |
| LdpcReceive.DecodeDataSound | crates/s2g-phy/src/ldpc.rs:457-495 | sign-correct LLRs give back exactly the data sent, for every codeword count, shortening, puncturing, repetition and iteration limit |
| LdpcReceive.FailuresCounted | crates/s2g-phy/src/ldpc.rs:457-495 | the failures reported are the codewords whose decided bits violate a check |
| Scrambler.ScrambleInPlace | crates/s2g-phy/src/scrambler.rs:27-34 | in-place scrambling is the exclusive or with the seed's sequence |
| Scrambler.ScrambleInvolution | crates/s2g-phy/src/scrambler.rs:27-34 | scrambling twice with one seed changes nothing |
| Scrambler.SeedRecovered | crates/s2g-phy/src/scrambler.rs:38-46 | the first seven sequence bits give back the seed |
| Scrambler.Recurrence | crates/s2g-phy/src/scrambler.rs:13-24 | every bit of the sequence is the exclusive or of those four and seven places earlier |
| Scrambler.Period127 | crates/s2g-phy/src/scrambler.rs:13-24 | the sequence repeats after 127 bits |
| Bits.BytesRoundTrip | crates/s2g-phy/src/bits.rs:10-28 | packing the bits of octets gives the octets back |
| Interleaver.PermBijective | crates/s2g-phy/src/interleaver.rs:13-24 | for one and every even number of bits per point the permutation stays within the symbol and an explicit inverse undoes it |
| Interleaver.PermOnto | crates/s2g-phy/src/interleaver.rs:13-24 | every position of the symbol is hit |
| Interleaver.Interleave | crates/s2g-phy/src/interleaver.rs:27-34 | bit k lands at the permuted place of k |
| Interleaver.DeinterleaveLlrs | crates/s2g-phy/src/interleaver.rs:38-46 | the LLR from the permuted place of k returns to place k |
| Interleaver.ToneBijective | crates/s2g-phy/src/ofdm.rs:67-82 | the LDPC tone mapper is a bijection on the 52 tones |
| Mapping.AxisLevel | crates/s2g-phy/src/mapping.rs:24-36 | the doubling-shift loop inverts the Gray code of the axis bits |
| Mapping.GrayOfUngray | crates/s2g-phy/src/mapping.rs:19-36 | Gray coding undoes the prefix exclusive-or |
| Mapping.AxisLlrs | crates/s2g-phy/src/mapping.rs:58-78 | one pass over the levels finds both least distances of every bit |
| Mapping.AxisRight | crates/s2g-phy/src/mapping.rs:58-78 | soft decisions have the sign of the bits sent whenever the observation is within half the level spacing |
| Mapping.Map | crates/s2g-phy/src/mapping.rs:39-55 | each point carries the levels of its bits on its two axes |
| Mapping.DemapLlrs | crates/s2g-phy/src/mapping.rs:81-104 | each bit's LLR is that of its axis, weighted by the tone's channel state |
| Mapping.DemapRight | crates/s2g-phy/src/mapping.rs:81-104 | a symbol whose points are each within half the level spacing gives LLRs that agree with all its bits |
| Geometry.CapacityFixedPoint | crates/s2g-phy/src/tx.rs:95-102 | the aggregated capacity is at least what was asked, asking for it again changes nothing, and the geometry is the same |
| Geometry.FitsAtHigherRate | crates/s2g-phy/src/tx.rs:54-102 | octets that fit at one MCS fit, and fewer do, at every higher MCS with the same coding, the LDPC extra symbol included |
| Geometry.SignalledGeometry | crates/s2g-phy/src/vector.rs:253-296 | from the SIG length the receiver derives the transmitter's symbol count and the PSDU length or padded capacity |
| Geometry.CapacityOfInitial | crates/s2g-phy/src/vector.rs:253-296 | for an aggregated LDPC PPDU the capacity is that of the initial symbols the decoder derives from the same count and flag, for every Length field |
| DataField.CodeBcc | crates/s2g-phy/src/tx.rs:143-168 | SERVICE, PSDU, pad and zeroed tail are scrambled, encoded and fill the symbols |
| DataField.CodeLdpc | crates/s2g-phy/src/tx.rs:143-168 | SERVICE, PSDU and pad are scrambled and carried by codewords that fill the symbols |
| DataField.SendField | crates/s2g-phy/src/tx.rs:169-200 | every symbol's tones carry its bits, interleaved for BCC and tone-mapped for LDPC |
| DataDecoder.DataDecoder.constructor | crates/s2g-phy/src/rx/decode.rs:34-57 | a fresh decoder for the signalled parameters has heard nothing |
| DataDecoder.DataDecoder.PushSymbol | crates/s2g-phy/src/rx/decode.rs:60-106 | nothing is returned before the last symbol; then the result is decoded from all symbols in order |
| DataDecoder.Descramble | crates/s2g-phy/src/rx/decode.rs:99-105 | the seed is recovered, the scrambled part descrambled in place, the PSDU octets cut out |
| BitChain.BccChain | crates/s2g-phy/src/rx/decode.rs:60-106 | LLRs of the right sign of a BCC field yield the PSDU, zero padded, and the seed |
| BitChain.LdpcChain | crates/s2g-phy/src/rx/decode.rs:60-106 | LLRs of the right sign of an LDPC field yield the PSDU, zero padded, and the seed |
| BitChain.FieldAgrees | crates/s2g-phy/src/rx/decode.rs:60-85 | tones received within half the level spacing give every coded bit of the field, in order, an LLR of the right sign |
| Ppdu.Transfer | crates/s2g-phy/src/tx.rs:130-168 | end to end for every PSDU, seed, MCS and coding the transmitter accepts: the decoder fed the received symbols returns the seed and the PSDU, padded with zero octets to the capacity when aggregated |
| Ppdu.TransferPpdu | crates/s2g-phy/src/rx/decode.rs:34-57 | the whole PPDU, SIG and data: the verdict announces exactly the transmission, and the decoder built from that verdict alone returns the seed and the PSDU |
| Sig.ShortBits | crates/s2g-phy/src/sig.rs:235-256 | pushing field by field gives the SIG layout, check and tail |
| Sig.LongBits | crates/s2g-phy/src/sig.rs:380-400 | pushing field by field gives the SIG-A layout, check and tail |
| Sig.MuBits | crates/s2g-phy/src/sig.rs:497-521 | pushing user by user gives the SIG-A layout for several users, absent users marked, check and tail |
| Sig.ComputeCheck | crates/s2g-phy/src/sig.rs:163-173 | the register loop computes the CRC-4 used in the error detection result |
| Crc.SigCheckDivides | crates/s2g-phy/src/sig.rs:160-173 | the check is the complement of the remainder modulo D^4 + D + 1 of the bits times D^4, the first four inverted |
| Sig.FieldsRoundTrip | crates/s2g-phy/src/sig.rs:574-629 | fields survive serialisation, check and parsing exactly when each fits its width, for SIG and SIG-A |
| Sig.MuRoundTrip | crates/s2g-phy/src/sig.rs:631-666 | SIG-A for several users survives serialisation, check and parsing exactly when its fields fit and the coding bit of every absent user is set |
| Sig.NdpRoundTrip | crates/s2g-phy/src/sig.rs:700-706 | a 37-bit NDP body survives too |
| Sig.OneErrorFound | crates/s2g-phy/src/sig.rs:187-195 | any single flipped bit of the 48 is noticed |
| SigField.SigPermBijective | crates/s2g-phy/src/interleaver.rs:49-55 | the SIG permutation has an explicit inverse |
| SigField.InterleaveSig | crates/s2g-phy/src/interleaver.rs:58-65 | bit k of a SIG symbol lands at its permuted place |
| SigField.EncodeField | crates/s2g-phy/src/sig.rs:670-691 | coded, interleaved and rotated, every tone carries its bit |
| SigField.AxisTells | crates/s2g-phy/src/sig.rs:670-691 | both symbols of SIG and the first of SIG-A are on the imaginary axis, the second of SIG-A on the real one |
| SigField.DecodeField | crates/s2g-phy/src/sig.rs:735-759 | rotation undone, soft decisions, deinterleaving and Viterbi decoding, then parsing by preamble type |
| SigField.FieldSurvives | crates/s2g-phy/src/sig.rs:735-759 | tones received with error below half the point distance decode to the bits sent |
| SigField.TransferFields | crates/s2g-phy/src/sig.rs:735-759 | fields that fit come back unchanged through encoding, tones, Viterbi decoding, check and parsing |
| SigVerdict.IdRoundTrip | crates/s2g-phy/src/sig.rs:197-220 | color and partial AID come back from the ID bits |
| SigVerdict.RatesAgree | crates/s2g-phy/src/params.rs:171-179 | the general rate rule agrees with the transmit table for one stream |
| SigVerdict.SignallingFaithful | crates/s2g-phy/src/sig.rs:261-359 | accepted exactly when color and partial AID are in range; then the verdict is Supported with the transmitter's parameters, symbol count and PSDU length or capacity |
| SigVerdict.SupportedIff | crates/s2g-phy/src/sig.rs:276-359 | the verdict is Supported exactly for one stream, 2 MHz, a supported MCS, a nonzero length and the reserved bit that goes with BCC set |
| Ndp.GetPut | crates/s2g-mac/src/ndp.rs:25-32 | a field reads back what was put, whatever the rest of the word |
| Ndp.GetPutOther | crates/s2g-mac/src/ndp.rs:25-32 | putting one field leaves every disjoint field alone |
| Ndp.ProtectTwice | crates/s2g-mac/src/ndp.rs:106-116 | bitmap protection applied twice restores every field, also those only partly covered |
| Ndp.ProtectBits | crates/s2g-mac/src/ndp.rs:106-116 | protection is the exclusive or of bits 3 to 18 with the bitmap and touches no other bit |
| Ndp.FrameRoundTrip | crates/s2g-mac/src/ndp.rs:86-151 | CTS, Ack and BlockAck survive serialisation exactly when their subfields fit, bitmap protection included |
| Ndp.ComputeAckId | crates/s2g-mac/src/ndp.rs:160-168 | the bit loop assembles seed and check-sequence bits into the Ack ID |
| Ndp.AckIdCollides | crates/s2g-mac/src/ndp.rs:160-168 | two Ack IDs are equal exactly when seven seed bits and nine check-sequence bits are |
| Ndp.BlockAckAgreement | crates/s2g-mac/src/engine.rs:865-888 | through the wire, across the 12-bit wrap: the sender sees as acknowledged exactly the sequence numbers received within sixteen of the first |
| Ampdu.ComputeDelimCrc | crates/s2g-mac/src/ampdu.rs:19-36 | the register loop computes the delimiter CRC over sixteen bits |
| Crc.DelimiterCheckDivides | crates/s2g-mac/src/ampdu.rs:15-36 | the check octet is the complement of the remainder modulo x^8 + x^2 + x + 1 of the header times x^8, its first eight bits inverted |
| Ampdu.DelimiterRoundTrip | crates/s2g-mac/src/ampdu.rs:39-60 | a built delimiter parses to its length and EOF flag for every 14-bit length |
| Ampdu.PreEofAgrees | crates/s2g-mac/src/ampdu.rs:97-100 | the length summed from MPDU lengths is where the last MPDU ends |
| Ampdu.Aggregate | crates/s2g-mac/src/ampdu.rs:77-93 | one MPDU behind an EOF delimiter, then only EOF delimiters, exactly the capacity long |
| Ampdu.AggregateMany | crates/s2g-mac/src/ampdu.rs:105-124 | every MPDU behind its delimiter at an aligned place, then only EOF delimiters, exactly the capacity long |
| Ampdu.Deaggregate | crates/s2g-mac/src/ampdu.rs:129-143 | the scan returns, in order, the octets of every range found |
| Ampdu.AggregateRoundTrip | crates/s2g-mac/src/ampdu.rs:105-143 | deaggregating an aggregate returns exactly the nonempty MPDUs in order, for every capacity |
| Ampdu.BodiesDoNotMatter | crates/s2g-mac/src/ampdu.rs:129-143 | overwriting MPDU bodies never changes the ranges returned |
| Ampdu.Resynchronises | crates/s2g-mac/src/ampdu.rs:129-143 | after a damaged subframe in which no aligned word announces a frame, every later subframe is recovered |
| Ampdu.KindSurvives | crates/s2g-mac/src/ampdu.rs:162-165 | damage within bodies never turns an S-MPDU into an A-MPDU or back |
| MacTypes.EthernetRoundTrip | crates/s2g-mac/src/eth.rs:9-48 | an accepted Ethernet frame is rebuilt octet by octet from its 802.11 body |
| Mac.Mac.constructor | crates/s2g-mac/src/engine.rs:312-346 | a new engine is idle with nothing queued, awaited or remembered |
| Mac.Mac.EnqueueEth | crates/s2g-mac/src/engine.rs:463-486 | filter, parse, queue limit and size check in this order; only then is the frame appended |
| Mac.Mac.UpdateResponseDelay | crates/s2g-mac/src/engine.rs:367-383 | smoothed delay and deviation after a sample |
| Mac.Mac.NoteLateResponse | crates/s2g-mac/src/engine.rs:393-400 | a late response counts once, and only within twice the ceiling |
| Mac.Mac.BeginBackoff | crates/s2g-mac/src/engine.rs:890-898 | the whole new state of a back-off draw (see MacMedium.BackoffWindow) |
| Mac.Mac.ResolveAttempt | crates/s2g-mac/src/engine.rs:665-722 | the loop over the batch completes, keeps or drops every MPDU and leaves the state whose properties are proved below |
| Mac.Mac.Fail | crates/s2g-mac/src/engine.rs:950-985 | an unanswered attempt, data or RTS, resolved with nothing acknowledged |
| Mac.Mac.FailCts | crates/s2g-mac/src/engine.rs:961-983 | an unanswered RTS burns one retry of every MPDU |
| Mac.Mac.HandleNdp | crates/s2g-mac/src/engine.rs:592-660 | reaction to NDP Ack, BlockAck and CTS, awaited, late or for others |
| Mac.Mac.NoteDuplicate | crates/s2g-mac/src/engine.rs:488-498 | membership among the last 64 remembered sequence numbers, and the new memory |
| Mac.Mac.AnswerSingle | crates/s2g-mac/src/engine.rs:845-860 | the Ack queued for one MPDU |
| Mac.Mac.AnswerBlock | crates/s2g-mac/src/engine.rs:865-888 | the bitmap loop and the BlockAck queued |
| Mac.Mac.HandleData | crates/s2g-mac/src/engine.rs:785-840 | own, foreign, group and own-address data MPDUs, and whether the block ack covers them |
| Mac.Mac.HandleFrame | crates/s2g-mac/src/engine.rs:727-781 | data, Ack, RTS and other frames of a PSDU |
| Mac.Mac.HandlePsdu | crates/s2g-mac/src/engine.rs:552-571 | frames in order, then one block ack for a genuine A-MPDU |
| Mac.Mac.HandlePhyEvent | crates/s2g-mac/src/engine.rs:517-573 | the whole new state after any PHY event |
| Mac.Mac.ChooseAttempt | crates/s2g-mac/src/engine.rs:913-948 | the greedy loop takes MPDUs as long as they fit |
| Mac.Mac.TakeWork | crates/s2g-mac/src/engine.rs:1020-1055 | identification when due, else a run of queued frames between the same stations |
| Mac.Mac.SendRequest | crates/s2g-mac/src/engine.rs:1068-1092 | the RTS, its duration and the state awaiting a CTS |
| Mac.Mac.SendBatch | crates/s2g-mac/src/engine.rs:1093-1192 | the attempt sent and the state awaiting its answer, or the batch finished or dropped |
| Mac.Mac.Advance | crates/s2g-mac/src/engine.rs:1004-1194 | the whole new state, events and action of a poll |
| MacSpec.GrowFits | crates/s2g-mac/src/engine.rs:913-932 | the MPDUs chosen fit together and one more would not |
| MacInvariant.ResolveValid | crates/s2g-mac/src/engine.rs:665-722 | resolving an awaited attempt leaves a valid state and, if the batch goes on, a strictly smaller sum of remaining tries |
| MacInvariant.FailRtsValid | crates/s2g-mac/src/engine.rs:956-983 | so does an unanswered RTS |
| MacInvariant.FailAttemptValid | crates/s2g-mac/src/engine.rs:950-985 | so does every unanswered attempt |
| MacInvariant.OnPhyEventValid | crates/s2g-mac/src/engine.rs:517-573 | every PHY event keeps states valid and neither queues nor numbers frames |
| MacInvariant.PollValid | crates/s2g-mac/src/engine.rs:1004-1194 | every poll keeps states valid |
| MacInvariant.RunValid | crates/s2g-mac/src/engine.rs:1004-1194 | every state of every run is valid |
| MacInvariant.NeverStuck | crates/s2g-mac/src/engine.rs:1058-1120 | on every run a batch exists exactly when backing off or awaiting, so the expects never fail; an unacknowledged batch has one MPDU; none exceeds sixteen |
| MacInvariant.BatchTerminates | crates/s2g-mac/src/engine.rs:675-694 | a batch of n MPDUs sees fewer than n (max_retries + 1) resolved attempts while it lasts, and no MPDU flies more than max_retries + 1 times |
| MacConservation.RunConserves | crates/s2g-mac/src/engine.rs:665-722 | after any run the accepted frames are, each exactly once, those queued, in the batch, or reported complete or dropped |
| MacConservation.StepConserves | crates/s2g-mac/src/engine.rs:1004-1194 | each step balances the same account |
| MacPreflight.PlanIffFirstFits | crates/s2g-mac/src/engine.rs:913-948 | an attempt can be built exactly when its first MPDU fits by itself |
| MacPreflight.FitsIff | crates/s2g-phy/src/tx.rs:54-102 | octets fit an aggregated PPDU exactly when 511 symbols hold them with SERVICE and tail bits, in both codings: the extra LDPC symbol never decides |
| MacPreflight.ChoiceSafeIff | crates/s2g-mac/src/engine.rs:474-483 | for every choice of rate: all frames that pass the size check, alone or in a batch, make an attempt if and only if the longest one admitted does |
| MacPreflight.SafeIffNoGap | crates/s2g-mac/src/engine.rs:474-483 | a supported choice at or above the MCS assumed by the check is safe unless LDPC is configured, BCC chosen, and both are at the same MCS from 1 to 5 |
| MacPreflight.ControllerSafe | crates/s2g-mac/src/rate.rs:321-325 | whatever the controller chooses on whatever history is safe, given its lowest rung and coding configuration |
| MacPreflight.NeverUnbuildable | crates/s2g-mac/src/engine.rs:474-483 | no accepted frame ends in PSDU build failed on any run whose rate choices are safe |
| MacPreflight.ControlledNeverUnbuildable | crates/s2g-mac/src/rate.rs:448-523 | nor on any run whose choices come from the rate controller, if its lowest rung is not below the MCS assumed and LDPC as configured coding is either kept to or that MCS is 0 or above 5 |
| MacPreflight.OneConfiguration | crates/s2g-mac/src/engine.rs:472-483 | so with rate control on and one lowest MCS for engine and controller, on the ladder and 0 or above 5, or BCC configured, or LDPC fixed |
| MacPreflight.RunsSafeIff | crates/s2g-mac/src/engine.rs:1093-1120 | for an aggregating station: no run at a choice drops an accepted frame unsent if and only if the choice is safe |
| MacPreflight.ControllerFails | crates/s2g-mac/src/rate.rs:142-146 | with LDPC configured and a lowest MCS from 1 to 5, or a lowest MCS off the ladder, the controller's first choice already makes a run that drops accepted frames unsent |
| MacAcks.AcknowledgedIffGood | crates/s2g-mac/src/engine.rs:616-637 | of the MPDUs in one PPDU the sender takes as acknowledged exactly those that survived |
| MacAcks.ReceiverAnswers | crates/s2g-mac/src/engine.rs:552-571 | a receiver in any state answers a PPDU with exactly one Ack or BlockAck when something survives |
| MacAcks.AggregateAnswered | crates/s2g-mac/src/engine.rs:865-888 | an A-MPDU is answered once, as it asks for: by a BlockAck of all that survived or a legacy Ack to the sender of the last |
| MacAcks.AckAgreement | crates/s2g-mac/src/engine.rs:1163-1175 | for every PPDU planned and every subset of MPDUs surviving, the answer is of the kind and ID awaited, and a BlockAck covers exactly the survivors |
| MacMedium.BackoffWindow | crates/s2g-mac/src/engine.rs:890-898 | the back-off ends an interframe space after everything known to be busy, and at most the contention window later |
| MacMedium.SendsOnlyWhenIdle | crates/s2g-mac/src/engine.rs:1057-1067 | data and RTS go out only while CCA, NAV and RID leave the medium idle |
| MacMedium.DeferralOnlyExtended | crates/s2g-mac/src/engine.rs:511-514 | busy time and NAV are only extended, and the RID too unless something was addressed to this station |
| MacMedium.DeferralExact | crates/s2g-mac/src/engine.rs:517-573 | whatever is heard extends NAV, RID and busy time to exactly the end of the exchange, of the response announced and of the energy on the air; only a frame addressed to the station resets the RID |
| MacMedium.DefersToAll | crates/s2g-mac/src/engine.rs:1057-1067 | on every run data and RTS go out only after every overheard reservation, all known energy, and every response announced since the station was last addressed |
| MacMedium.EifsExact | crates/s2g-mac/src/engine.rs:545-550 | EIFS is due exactly from a format violation until a frame arrives whole or a back-off is drawn |
| MacTiming.SampleMoves | crates/s2g-mac/src/engine.rs:367-383 | the delay estimate moves an eighth of the way to a sample and the deviation a quarter, rounded down |
| MacTiming.EstimateWithin | crates/s2g-mac/src/engine.rs:367-383 | after any samples the estimate lies within them and the deviation within their spread or half of the largest |
| MacTiming.TimeoutCovers | crates/s2g-mac/src/engine.rs:348-365 | the timeout covers the estimate with four deviations, or half of it again, and a headroom, within floor and ceiling, and is no longer than that |
| MacTiming.ResponsesMeasured | crates/s2g-mac/src/engine.rs:592-637 | an awaited acknowledgment is measured from the end of its transmission, a late one once, others not at all |
| MacTiming.AirtimeIs | crates/s2g-phy/src/vector.rs:225-248 | a PPDU takes 240 us and 40 us for every symbol, with the short guard interval 36 us for every symbol after the first |
| MacTiming.FlightTimes | crates/s2g-mac/src/engine.rs:1093-1192 | what goes on the air carries the duration of its response and the retry bits, and is awaited until the timeout after its end |
| MacTiming.ResolveCounts | crates/s2g-mac/src/engine.rs:665-722 | after an attempt the contention window is smallest if all was acknowledged or the batch is over, else doubled; the rate worked if enough octets were acknowledged |
| MacTiming.RtsFailed | crates/s2g-mac/src/engine.rs:961-983 | an unanswered RTS costs every frame a retry and doubles the window, and is not counted against the rate |
| MacTiming.WindowDoubles | crates/s2g-mac/src/engine.rs:697-716 | the window doubles with every unanswered attempt up to its limit |
| MacPolicy.TakesOldest | crates/s2g-mac/src/engine.rs:1020-1055 | a batch is the longest run of the oldest frames between the same stations within the limit, in order |
| MacPolicy.QueueIsLatest | crates/s2g-mac/src/engine.rs:463-486 | on every run the queue is what was accepted last, in order |
| MacPolicy.RtsIff | crates/s2g-mac/src/engine.rs:1068-1092 | an RTS goes first exactly if an acknowledgment is expected, the batch exceeds the threshold and nothing was cleared yet |
| MacPolicy.AwaitedIff | crates/s2g-mac/src/engine.rs:1093-1192 | an attempt awaits an answer exactly if acknowledgments are on and it goes to one station and is no identification |
| MacPolicy.RunPassed | crates/s2g-mac/src/engine.rs:463-486 | on every run all that is handed up and all that is accepted has passed the filter where it is asked |
| MacPolicy.IdentTakenIff | crates/s2g-mac/src/engine.rs:990-1001 | an identification is taken up exactly when due: before data after the interval, and after the last data once idle, at most once a minute |
| MacPolicy.IdentRecorded | crates/s2g-mac/src/engine.rs:1120-1192 | an identification that goes out is reported with its text and time, and none is owed then |
| MacPolicy.RunOwes | crates/s2g-mac/src/engine.rs:1120-1192 | on every run, from the first data after an identification until the next, the station keeps in mind that it must identify itself |
| MacMedium.IdentifiedBeforeData | crates/s2g-mac/src/engine.rs:990-1001 | on every run of a station with a call sign, a poll that sends data is preceded by the report of an identification sent earlier in the run, or its batch is one |
| MacMedium.IdentFresh | crates/s2g-mac/src/engine.rs:990-1001 | data is taken up only while the last identification is younger than the configured interval |
| MacHandshake.RtsAnswered | crates/s2g-mac/src/engine.rs:755-774 | the station an RTS names answers with one CTS, any other sets its NAV |
| MacHandshake.CtsAcceptedIff | crates/s2g-mac/src/engine.rs:638-657 | the answering CTS lets the attempt proceed if and only if the batch's source address has the station's own partial AID |
| MacHandshake.LegacyAckAcceptedIff | crates/s2g-mac/src/engine.rs:745-754 | the legacy Ack for a frame completes the attempt if and only if the frame's source is the station's own address |
| MacHandshake.CtsCovers | crates/s2g-mac/src/engine.rs:1076-1092 | the duration in the CTS is exactly SIFS, data, SIFS and response, unless fifteen bits do not hold it |
| MacEvolution.PollFacts | crates/s2g-mac/src/engine.rs:1004-1194 | a poll hands out a pending response, or sends the beginning of the batch it prepared, and never acknowledges or hands up |
| MacReception.RecentRemembered | crates/s2g-mac/src/engine.rs:488-498 | a frame logged earlier is among the last sixteen of its station when it arrives again |
| MacReception.DuplicateFound | crates/s2g-mac/src/engine.rs:488-498 | duplicate detection recognises every frame already logged |
| MacReception.HandUpIff | crates/s2g-mac/src/engine.rs:488-498 | a data MPDU is dropped if and only if one of the last 64 logged of its station agrees with it in twelve bits of the sequence |
| MacReception.DroppedIff | crates/s2g-mac/src/engine.rs:812-840 | that is, if and only if it is logged already or one of those is a positive multiple of 4096 older |
| MacReception.OnFramesTook | crates/s2g-mac/src/engine.rs:785-840 | however an A-MPDU is damaged, the log stays free of duplicates, hand-ups are exactly what it gains, and every MPDU that arrives for the station is logged unless its number wraps around |
| LinkOrder.ReceiverHears | crates/s2g-mac/src/engine.rs:552-571 | delivering the head of the channel keeps the order of batches, the log and the hand-up account |
| LinkAcks.DataAnswered | crates/s2g-mac/src/engine.rs:845-888 | every Ack or BlockAck queued stands for logged frames only, unless a number wraps around |
| LinkAcks.EventDelivers | crates/s2g-mac/src/engine.rs:592-645 | if a response heard is justified and not late, every frame reported acknowledged was logged by the peer with the same content |
| Link.HandedUpAtMostOnce | crates/s2g-mac/src/engine.rs:812-840 | two stations over a lossy in-order channel: on every run no frame is handed up twice at either end |
| Link.NextDroppedIff | crates/s2g-mac/src/engine.rs:488-498 | on every run of the link: the next data MPDU is dropped if and only if it is logged already or wraps around onto one of the last 64 of its station |
| Link.HeardKept | crates/s2g-mac/src/engine.rs:785-840 | on every run: whatever survives of a PPDU is in the receiver's log afterwards, or wraps around |
| LinkExactly.AckedExactlyOnce | crates/s2g-mac/src/engine.rs:1041-1053 | with NDP acks and no ingress filter, on every run, however long, on which no number heard wraps around onto one remembered and no Ack shares its Ack ID with the one awaited: a frame reported acknowledged was handed up exactly once, octet for octet |
| LinkExactly.NoWrapBefore | crates/s2g-mac/src/engine.rs:1041-1053 | no run meets the wrap before 4096 sequence numbers are given out |
| LinkFailures.AckCompletesIff | crates/s2g-mac/src/engine.rs:600-614 | the Ack queued for frame x completes the batch awaiting y if and only if seeds agree in seven bits and check sequences in nine |
| LinkFailures.WrapLoses | crates/s2g-mac/src/engine.rs:488-498 | a run of the link on which the frame with id 4096 is reported acknowledged and never handed up |
| LinkFailures.SharedLoses | crates/s2g-mac/src/engine.rs:600-614 | for any two frames whose Ack IDs agree, a run on which the second is lost, reported acknowledged and never handed up |
| Rate.LadderRates | crates/s2g-mac/src/rate.rs:74-75 | the ladder's rungs are the supported MCSs with their rates |
| Rate.ControllerBounded | crates/s2g-mac/src/rate.rs:448-523 | on every run choices stay within the configured rungs and, when the coding is fixed, use it; back-offs stay below the cap, and probes are at most one per probe_interval fresh attempts |
| Rate.SelectOk | crates/s2g-mac/src/rate.rs:448-523 | a probe needs probe_interval fresh attempts since the last; retries never probe |
| Rate.ReportOk | crates/s2g-mac/src/rate.rs:531-621 | an outcome keeps rung and back-offs in bounds, remembers the first failure of a batch, and never one of an LDPC probe when the coding is fixed |
| Rate.RetryIs | crates/s2g-mac/src/rate.rs:466-478 | the k-th retry uses exactly the rung k below the failed attempt, the short guard interval given up first |
| Rate.WalkDown | crates/s2g-mac/src/rate.rs:466-478 | consecutive retries, whatever SNR or delay spread is heard meanwhile, never raise the rung, never probe, and reach the lowest within the ladder length plus one |
| RateOutcomes.OutcomeLearns | crates/s2g-mac/src/rate.rs:531-560 | a success never lowers and a failure never raises the estimate of the rate used; all stay probabilities and no other changes |
| RateOutcomes.OutcomeTallied | crates/s2g-mac/src/rate.rs:531-560 | attempts and successes are counted for the rate used and no other |
| RateOutcomes.RunProbabilities | crates/s2g-mac/src/rate.rs:531-560 | on every run all estimates are probabilities |
| RateOutcomes.OutcomeSettles | crates/s2g-mac/src/rate.rs:597-619 | after any outcome the rung is the highest that holds its floor, or one step below a failing one with none below that holds, else unchanged |
| RateOutcomes.FirstSuccessStays | crates/s2g-mac/src/rate.rs:531-619 | a first success at an untried rung in use never lowers it |
| RateOutcomes.DeadRateLeft | crates/s2g-mac/src/rate.rs:531-619 | a rate above the lowest that only fails is left within a number of failures that alpha and p_min determine |
| RateOutcomes.FloorMeans | crates/s2g-mac/src/rate.rs:285-310 | a rate reaches its floor exactly if its extra failures cost no more than it saves |
| RateOutcomes.ProbesRarer | crates/s2g-mac/src/rate.rs:559-590 | the wait for the next probe doubles with each failed one up to the cap |
| RateChoices.FreshChoice | crates/s2g-mac/src/rate.rs:480-523 | a fresh attempt uses the rate in use or the probe that is due: a higher rung, sooner if the signal speaks for it, else only from a rung without losses, then LDPC, then the short guard interval |
| RateChoices.RetriedWith | crates/s2g-mac/src/rate.rs:466-478 | retries use the long guard interval unless fixed, and no LDPC after an LDPC probe |
| RateChoices.HigherNeedsMore | crates/s2g-mac/src/rate.rs:253-260 | a higher rate needs a better signal, and LDPC saves 1.8 dB except at the lowest |
| RateChoices.OpeningIs | crates/s2g-mac/src/rate.rs:339-344 | the opening rung is the highest the signal allows, or the configured one within bounds |
| RateChoices.DelaySpreadHeard | crates/s2g-mac/src/rate.rs:427-437 | a delay spread heard moves the estimate by three tenths and nothing else |
| RateChoices.SnrHeard | crates/s2g-mac/src/rate.rs:390-411 | a signal heard moves the estimate by three tenths, gives an untried peer its opening rung, and ends the wait for a probe once it has improved enough |
| RateChoices.ProbeDecides | crates/s2g-mac/src/rate.rs:560-591 | a successful probe brings its rung to its floor or puts LDPC or the short guard interval in use; a failed one doubles its wait |
| RateChoices.ShortGiDropped | crates/s2g-mac/src/rate.rs:593-598 | the short guard interval is given up exactly when below its floor |
| RateChoices.LosslessClimbs | crates/s2g-mac/src/rate.rs:448-619 | a link on which every attempt succeeds is brought to the highest rung within one probe interval a rung and stays there |
| RateChoices.NewPeerClimbs | crates/s2g-mac/src/rate.rs:448-619 | so is every new peer |
| RateControl.RateControl.Choose | crates/s2g-mac/src/rate.rs:448-523 | the choice and the whole new record of the peer, other peers untouched |
| RateControl.RateControl.Settle | crates/s2g-mac/src/rate.rs:531-621 | the whole new record after an outcome; off-ladder choices are ignored |
| RateControl.RateControl.HearSnr | crates/s2g-mac/src/rate.rs:390-411 | smoothing, re-arming and the opening rate |
| RateControl.RateControl.HearDelaySpread | crates/s2g-mac/src/rate.rs:427-436 | smoothing of the delay spread |
| RateControl.Resettle | crates/s2g-mac/src/rate.rs:597-619 | falls back to the best known good rung below a failing one, or moves up to a better one |
| RateControl.FindStart | crates/s2g-mac/src/rate.rs:339-344 | the highest rung the SNR allows |
| Filter.WalkHeaders | crates/s2g-mac/src/filter.rs:250-274 | the loop over extension headers finds the transport header, a truncation or another fragment |
| Filter.FindIcv | crates/s2g-mac/src/filter.rs:405-435 | the search returns the first usual ICV length with default padding and a plausible payload |
| Filter.CheckMonotone | crates/s2g-mac/src/filter.rs:205-457 | a frame that passes a policy passes every policy that allows at least as much and blocks no further port, through all nested tunnels |
| FilterLayers.PassesIff | crates/s2g-mac/src/filter.rs:205-457 | a frame passes if and only if every layer in it, tunnels and unencrypted ESP included, is well formed, not too deep and permitted by the switches of the policy |
| FilterLayers.TcpOverIpv6 | crates/s2g-mac/src/filter.rs:205-403 | octet by octet for TCP directly over IPv6: passes exactly by destination scope, blocked and discovery ports |
| FilterLayers.WalkIff | crates/s2g-mac/src/filter.rs:250-274 | the transport header is found exactly if a chain of extension headers leads to it |
| FilterLayers.EspSeen | crates/s2g-mac/src/filter.rs:405-435 | ESP is looked into exactly if it is a whole packet with default padding under a check value of a usual length, the first that fits |
| Resampler.HalfbandInterp2.Process | crates/s2g-dsp/src/lib.rs:51-76 | a chunk yields twice the 47-tap convolution of the zero-stuffed stream at its positions, history trimming included |
| Resampler.HalfbandDecim2.Process | crates/s2g-dsp/src/lib.rs:99-122 | a chunk yields the convolution at the even places of the stream, history trimming included |
| Resampler.PartsConvolved | crates/s2g-dsp/src/lib.rs:51-122 | real and imaginary parts are filtered alike and apart, as sums of products with the taps |
| Resampler.InterpolateAll | crates/s2g-dsp/src/lib.rs:51-76 | any split into chunks gives the same output, two samples for each input |
| Resampler.DecimateAll | crates/s2g-dsp/src/lib.rs:99-122 | any split into chunks gives the same output, one sample for two, odd leftovers carried |

## Left out

- Floating-point rounding, the error vector magnitude of the Data decoder, and K_MOD beyond being positive.
- Synchronisation, channel estimation, tracking, carrier sensing levels, FFT, pilots and preamble waveforms: the model starts and ends at frequency-domain tones.
- Error correction beyond what is stated: for Viterbi optimality and all patterns below half the minimum distance, for min-sum soundness and the erasures that peeling recovers. Wrong signs are not claimed to be corrected by min-sum.
- LdpcDecoder.Decode: a check with one variable would send an infinite message in the source; the codes modelled have none, and the model then sends zero.
- Geometry.FitsAtHigherRate: does not cover a change of coding; `MacPreflight.SafeIffNoGap` does.
- Sig.MuRoundTrip: the verdict on a PPDU for several users (reserved or unsupported, never decoded) is not modelled, nor is the hold time reported with a reserved field.
- CRC-32 and the parsing of frame headers: the engine receives parsed frames, and the frame check sequence and the address checksum are arbitrary functions in the configuration. Reserved PV1 frames and frames that identify a station by AID count as frames of no concern.
- Rate-control bookkeeping inside the engine (reports, SNR, frequency offset and delay-spread hints, the fail-cost update): the controller is modelled on its own, and the octets an attempt must deliver for its rate arrive as an input.
- Identification text, statistics getters, configuration defaults and u64 overflow of microsecond clocks.
- Mac.Mac.SendBatch: the octets of a PSDU are not built inside the engine; a PPDU carries its list of MPDUs, and `Ampdu` proves separately that such a list survives the octets.
- Link.HandedUpAtMostOnce: two stations only; frames from third stations are not part of the link, other than as noise that occupies the medium.
- LinkExactly.AckedExactlyOnce: says nothing of a run that meets the wrap or a shared Ack ID; there a frame can be acknowledged and lost (`LinkFailures`), or delivered all the same.
- Filter.CheckMonotone: the reasons attached to drops are not modelled; the verdict is pass or drop.
- RateOutcomes.OutcomeLearns: estimates are exact reals, alpha within [0, 1] and p_min at most 1; throughput figures and other statistics are not modelled.
- Resampler.HalfbandInterp2.Process: the taps are arbitrary; the windowed-sinc formula that fills them is not modelled.
- Network, device, capture and command-line code.
