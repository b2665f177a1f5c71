# A model of the payment server's hard parts

This project models three parts of the repository in Dafny and proves what they are for.

**The QR encoder** (`src/lib/paymentQr.ts`). GF(256) tables, polynomial division, Reed-Solomon
blocks, interleaving, the bit stream, the fixed patterns, the zigzag, masking and format bits are
imperative Dafny over arrays and classes, as in the source. The main result is `QrSymbol.BuildMatrix`:
for every text that fits, the smallest version is chosen, the finished grid shows its finders, timing
lines, alignment patterns, format and version bits (`PatternShades`), and a reader who knows only the
mask and the version gets the bytes of the text back. `MaskTiles`, `QrStandard` and `QrPictures` hold
the code against the standard's own tables and pictures, so reader and encoder cannot be wrong
together. A byte is eight booleans; polynomials over GF(2) are naturals with their binary digits.

**Money state under compare-and-set.** The spend-cap ledger: `PolicyLedger` and `LedgerRuns` model
clients that read, decide and commit, in every interleaving, with failed reads, failed commits and
lost replies; `CapSafety` proves the cap, `ReserveAnswers` and `LedgerAnswers` say exactly what a call
is told. The shared payment store: `PayRecords` and `PayStore` model the mutators and guards,
`PayStoreFile` their loops, `PayStoreCas` the retry loop; `SettlementAnswers` and `StoreEffects` say
exactly what each operation answers and writes, `SettlementRuns`, `Outbox` and `ConcurrentSettlement`
what every run keeps. The delivery rows: `Webhooks`, `LeaseRuns`, `DueClaims`, `WebhookWorker` and
`StoreLeases`. `StoreRetries` and `LedgerRetries` count attempts. Shared state is a value, the functions
say what one atomic step does to it, and classes hold the loops of the source and are proved equal to
those functions.

**Smaller cores.** The two definitions of a paid receipt (`Receipts`, `ReceiptReasons`), the browser's
session coordinator (`SessionClient`, `SessionProvenance`, `SessionCallers`), the fixed-window limiter
(`RateLimit`, `RateLimitRuns`, `RateAdmission`), single-use sign-in challenges (`WalletNonce`,
`WorkspaceLogin`), paged log scans (`LogPages`), and the amount parsers (`Amounts`).

Hashes and encodings (sha256, keccak, JSON text of a store) are injective or parameters; ids and
tokens are inputs that a run takes fresh; times are integers; signature recovery is an input.
Strings are sequences of characters and `toLowerCase` is ASCII lower case.

## What the proofs found

- A ledger row that is RESERVED can change its amount in one write. `LedgerRuns.AmountChangesExactly`
  gives the guards: the call reserves that id with another amount, the intents it was given release
  the row at its clock, and no cap denies it; `LedgerRuns.AmountsChangeOverRuns` says the same of
  every two neighbouring stored values of a run. `LedgerRuns.UnstoredAmountCanChange` is a run in which
  the intent was never stored and the hold is an hour past its expiry. `LedgerRuns.OneGrantPerHold`
  counts holds by id and amount for that reason.
- The cap check is sound for every list of facts that fit the rows, every cap and every amount exactly
  when no CONSUMED row is ahead of the call's clock (`CapSafety.CheckIsSoundExactly`, with
  `CapSafety.SkewedClockOvershoots` as the instance). Facts fit when they agree with the rows and name no
  RESERVED one, which recovery sees to; without that a hold drops out of the sum
  (`CapSafety.ReservedVerifiedIsDropped`).
- A worker whose lease was taken over enqueues the next attempt although its finalize, which was to
  use the slot up, wrote nothing: `WebhookWorker.RetriesUseTheSlot` says exactly when the slot is
  spent, and `WebhookWorker.RetryFromUnspentSlot` is a run in which it is not.
- A second logout that starts while one is pending takes over `pendingLogout`, so a sign-in may set
  its session while the older DELETE request is still on its way
  (`SessionClient.GoesStrayExactly`, `SessionClient.NoStrays`, `SessionClient.StrayLogoutOutlivesSignIn`).
- A sign-in whose nonce commit lands late, after another commit with a clock 360 seconds past the
  first use has pruned the nonce, can use its challenge again (`WorkspaceLogin.ReplayedExactly`,
  `WorkspaceLogin.SlowReplay`). With a clock that does not go back in commit order it cannot.
- A receipt with two payments settles both requests for the receipt verifier, and only the first for
  the agent proof (`Receipts.VerifiedBindsExactly`, `Receipts.SecondMemoIsNotBound`).
- The SDK accepts an amount that ends in a bare point, such as `5.`, and the server does not; nothing
  else separates the two parsers (`Amounts.ParsersAgreeExactly`).

## Model

| member | source | states |
|---|---|---|
| Galois.OrderIs255 | src/lib/paymentQr.ts:20-31 | No positive power of the generator below 255 is one, so the table of powers does not repeat. |
| Galois.PowInjective | src/lib/paymentQr.ts:20-31 | The 255 entries of the power table are different bytes. |
| Galois.EveryNonZeroIsPower | src/lib/paymentQr.ts:20-31 | Every nonzero byte is in the power table, so its logarithm exists. |
| ReedSolomon.FillTables | src/lib/paymentQr.ts:22-29 | The first loop leaves the powers of 2 in EXP and the logarithm of every nonzero byte in LOG. |
| ReedSolomon.ExtendPowers | src/lib/paymentQr.ts:30-31 | The second loop makes all 512 entries of EXP the powers of 2, past the period. |
| ReedSolomon.Tables.GfMul | src/lib/paymentQr.ts:33-36 | The table lookup is the field product. |
| FieldProduct.MulIsShiftAdd | src/lib/paymentQr.ts:33-36 | The product by logarithms equals shift-and-add multiplication. |
| FieldReference.MulIsCarrylessRemainder | src/lib/paymentQr.ts:33-36 | The product is the carry-less product of the two bytes up to a multiple of 0x11d: multiplication modulo the field polynomial. |
| FieldProduct.MulPowers | src/lib/paymentQr.ts:33-36 | The product of two powers of 2 is the power of the sum of the exponents. |
| FieldProduct.MulComm | src/lib/paymentQr.ts:33-36 | The product is commutative. |
| FieldProduct.MulAssoc | src/lib/paymentQr.ts:33-36 | The product is associative on all bytes, zero included. |
| FieldProduct.MulAdd | src/lib/paymentQr.ts:33-36 | The product distributes over exclusive-or. |
| FieldProduct.MulNonZero | src/lib/paymentQr.ts:33-36 | Nonzero bytes have a nonzero product. |
| ReedSolomon.PolyMul | src/lib/paymentQr.ts:38-44 | The in-place accumulation is the convolution product. |
| ReedSolomon.DivisionStep | src/lib/paymentQr.ts:46-56 | Cancelling one leading coefficient keeps dividend = quotient times divisor plus remainder. |
| ReedSolomon.PolyMod | src/lib/paymentQr.ts:46-56 | Terminates for a monic divisor, and the result is shorter than the divisor and is the remainder of a division. |
| ReedSolomon.CodewordIsMultiple | src/lib/paymentQr.ts:64-76 | Appending the left-padded remainder makes the data a multiple of the divisor. |
| ReedSolomon.GeneratorMonic | src/lib/paymentQr.ts:58-62 | The generator's leading coefficient is one, which is what the division relies on. |
| ReedSolomon.EcPolynomial | src/lib/paymentQr.ts:58-62 | The loop computes the product of the factors x minus 2^i. |
| ReedSolomon.RsEncode | src/lib/paymentQr.ts:64-76 | Returns exactly `degree` bytes, and data followed by them is a multiple of the generator. |
| ReedSolomon.GeneratorRoots | src/lib/paymentQr.ts:58-62 | The first `degree` powers of 2 are roots of the generator. |
| ReedSolomon.SyndromesVanish | src/lib/paymentQr.ts:64-76 | All syndromes of an encoded block are zero. |
| ReedSolomon.ParityUnique | src/lib/paymentQr.ts:64-76 | No other parity of that length makes the block a multiple of the generator. |
| BitStream.NumberOfNumeral | src/lib/paymentQr.ts:121-125 | The bits that `put` appends spell the value modulo a power of two. |
| BitStream.AllBitsInjective | src/lib/paymentQr.ts:126-138 | Bytes are determined by their bits. |
| BitStream.Bits.Put | src/lib/paymentQr.ts:123-125 | Appends the value's low bits, most significant first, after what was there. |
| BitStream.Bits.PutBytes | src/lib/paymentQr.ts:126-131 | Appends the eight bits of each byte. |
| BitStream.Bits.ToBytes | src/lib/paymentQr.ts:132-138 | The bytes have the stream's bits in order and zeros after its end. |
| Versions.TablesAreSound | src/lib/paymentQr.ts:6-18 | For all 40 versions the block count divides the parity total, the totals are ordered, and the capacity fits the character count. |
| Versions.PickVersion | src/lib/paymentQr.ts:112-119 | Returns the smallest version that holds the length, and fails exactly when none does. |
| QrStandard.CapacitiesAreStandard | src/lib/paymentQr.ts:6-18 | The code's tables and character count give all 40 versions the byte capacity that the standard's table lists for level M. |
| Interleaving.SplitBlocks | src/lib/paymentQr.ts:152-173 | The blocks cut the payload in order, short ones first, and each with its parity is a multiple of the generator. |
| Interleaving.PlaceData | src/lib/paymentQr.ts:174-180 | Column by column the data bytes land in their slots, in place. |
| Interleaving.PlaceParity | src/lib/paymentQr.ts:181-183 | The parity bytes land behind the data, which stays as it was. |
| Interleaving.SlotIsUsed | src/lib/paymentQr.ts:174-183 | Every slot below the total belongs to some data or parity byte, so all slots are filled. |
| QrPictures.BlockSizes | src/lib/paymentQr.ts:152-173 | The blocks cut the data in order, shorter ones first and none more than one byte longer, and share the parity evenly. |
| QrPictures.SlotsInOrder | src/lib/paymentQr.ts:174-183 | Slots are taken byte by byte from the blocks in turn, all data before all parity; with SlotIsUsed this leaves one order. |
| Interleaving.CreateCodewords | src/lib/paymentQr.ts:152-185 | Exactly `total` codewords; de-interleaving them gives the payload back, and every block is a Reed-Solomon codeword. |
| Interleaving.CodewordsDetermined | src/lib/paymentQr.ts:152-185 | Those two facts leave only one possible codeword sequence. |
| TextSegment.TerminatorFits | src/lib/paymentQr.ts:187-200 | For every text that fits, the terminator fits too, and whole padding bytes end exactly at capacity. |
| TextSegment.EncodeData | src/lib/paymentQr.ts:187-200 | The de-interleaved data bits are mode, count, bytes, terminator, alignment and alternating padding. |
| QrPictures.SegmentStarts | src/lib/paymentQr.ts:187-200 | The segment starts with mode 0100 and the length, in 8 bits up to version 9 and in 16 from version 10. |
| QrPictures.PaddingAlternates | src/lib/paymentQr.ts:187-200 | The pad bytes are 11101100 and 00010001 in turn. |
| TextSegment.AlignToByte | src/lib/paymentQr.ts:187-200 | Appends zeros up to the next byte boundary and no further. |
| TextSegment.ParseStream | src/lib/paymentQr.ts:187-200 | Parsing the segment the encoder lays out gives the bytes back, whatever the padding. |
| TextSegment.PackAllBits | src/lib/paymentQr.ts:132-138 | Regrouping the bits of bytes in eights gives the bytes back. |
| TextSegment.DecodeEncoded | src/lib/paymentQr.ts:187-200 | De-interleaving and parsing mode, count and bytes returns the text. |
| Zigzag.OrderIsExact | src/lib/paymentQr.ts:271-297 | The zigzag visits every module outside column 6 exactly once. |
| QrPictures.OrderIsZigzag | src/lib/paymentQr.ts:271-297 | The modules are taken in strips from the right, upwards and downwards in turn, right before left; with OrderIsExact this leaves one order. |
| Grid.Matrix.SetModule | src/lib/paymentQr.ts:208-212 | Changes one cell of each array and no other. |
| DataPlacement.PlaceData | src/lib/paymentQr.ts:271-298 | The free modules hold the codeword bits in zigzag order and then zeros; reserved modules keep their value. |
| DataPlacement.PlaceStrip | src/lib/paymentQr.ts:275-297 | One strip leaves the row at the edge it reached, the direction turned and the cursor advanced by its free modules. |
| DataPlacement.PlaceStep | src/lib/paymentQr.ts:278-290 | Both modules of a step are handled in order and the bit cursor moves by the free ones. |
| DataPlacement.CursorBit | src/lib/paymentQr.ts:272-288 | The byte and bit counters point at the next data bit, most significant bit first. |
| FunctionPatterns.DrawFinder | src/lib/paymentQr.ts:225-237 | A finder is a dark 3 by 3 core with a dark ring three modules out, clipped to the grid, all of it reserved, and nothing else changes. |
| QrPictures.FinderIsPictured | src/lib/paymentQr.ts:225-237 | The finder's shades are the standard's picture, with its light border. |
| FunctionPatterns.DrawTiming | src/lib/paymentQr.ts:238-242 | The timing lines alternate from module 8 to the far finders, reserved, and nothing else changes. |
| QrPictures.TimingPlaces | src/lib/paymentQr.ts:238-242 | The timing lines run along row 6 and column 6 between the finders. |
| FunctionPatterns.AlignmentCoords | src/lib/paymentQr.ts:141-150 | Returns the position list of the version: from 6 to size minus 7, evenly spaced after the first, as many as the version says. |
| FunctionPatterns.PositionsApart | src/lib/paymentQr.ts:141-150 | The positions of every version are even and at least 12 modules apart. |
| QrStandard.PositionsAreStandard | src/lib/paymentQr.ts:141-150 | The computed alignment coordinates are the standard's for all 40 versions. |
| FunctionPatterns.DrawAlignmentAt | src/lib/paymentQr.ts:251-256 | One alignment pattern is a dark centre and a dark ring two modules out, reserved, and nothing else changes. |
| QrPictures.AlignmentIsPictured | src/lib/paymentQr.ts:251-256 | The alignment pattern's shades are the standard's picture. |
| FunctionPatterns.DrawAlignment | src/lib/paymentQr.ts:244-258 | Exactly the patterns off the three finder corners are drawn and reserved. |
| QrPictures.CornersTouchFinders | src/lib/paymentQr.ts:244-258 | The patterns left out are exactly those that would touch a finder. |
| FunctionPatterns.DrawVersion | src/lib/paymentQr.ts:260-269 | Both copies of the 18 version bits are at their places and nothing else changes. |
| QrPictures.VersionPlaces | src/lib/paymentQr.ts:260-269 | Version bit k stands three to a row beside the upper right finder, and mirrored below. |
| PatternShades.AlignmentsDisjoint | src/lib/paymentQr.ts:244-258 | No two alignment patterns of a version share a module, so each keeps the shades it was drawn with. |
| SymbolMatrix.PlaceFormat | src/lib/paymentQr.ts:332-345 | Both copies of the 15 format bits and the dark module are written, and no other module changes. |
| QrPictures.FormatPlaces | src/lib/paymentQr.ts:332-345 | The places of both copies of the 15 format bits, listed. |
| MaskTiles.MaskIsTiled | src/lib/paymentQr.ts:310-330 | Each of the eight mask formulas flips exactly the modules that its tile of the standard marks, repeated from the upper left module, and no other number flips anything. |
| MaskTiles.ChessboardLaw | src/lib/paymentQr.ts:310-330 | Mask 0 flips the corner, and neighbours in a row or a column differ. |
| MaskTiles.StripeLaw | src/lib/paymentQr.ts:310-330 | Mask 1 flips every second row from the first, and mask 2 every third column from the first. |
| MaskTiles.DiagonalLaw | src/lib/paymentQr.ts:310-330 | Mask 3 flips every third diagonal from the corner. |
| MaskTiles.BlockLaw | src/lib/paymentQr.ts:310-330 | Mask 4 flips blocks of two rows and three columns, every second one in both directions. |
| SymbolMatrix.ApplyMask | src/lib/paymentQr.ts:299-330 | Exactly the unreserved modules that the tile of the mask marks are flipped. |
| QrSymbol.DrawFunctionPatterns | src/lib/paymentQr.ts:214-269 | After all patterns, a module is reserved exactly when the version says so, and every finder, timing, alignment, format and version module has its shade. |
| QrSymbol.ReservedIsMap | src/lib/paymentQr.ts:214-269 | The reserved modules of a drawn grid are a function of the version, so a reader can compute them. |
| ModuleCount.EveryVersionHasRoom | src/lib/paymentQr.ts:14-18 | For all 40 versions the modules that patterns do not take are at least the codeword bits. |
| QrSymbol.FreeModulesSuffice | src/lib/paymentQr.ts:214-297 | In every version the modules that no pattern takes hold all codewords. |
| QrSymbol.FreeModulesAreExact | src/lib/paymentQr.ts:271-297 | With column 6 reserved, the free modules of the zigzag are exactly the unreserved ones, each once. |
| QrSymbol.ReadBack | src/lib/paymentQr.ts:271-307 | After placement, masking and any rewriting of reserved modules, unmasking by the tiles in zigzag order gives the codeword bits and then zeros. |
| QrSymbol.FormatKeepsFree | src/lib/paymentQr.ts:305-345 | The second `placeFormat` reserves nothing new and changes no free module. |
| PatternShades.PatternsSurvive | src/lib/paymentQr.ts:299-345 | Changes outside the patterns and a rewrite of the same format bits leave every pattern as it was. |
| QrSymbol.BuildMatrix | src/lib/paymentQr.ts:214-330 | The smallest version; the finished symbol shows all its patterns and both copies of the format bits; and a reader who knows the mask, by its tile, and the version gets the bytes of the text. |
| PolicyLedger.LedgerDoc.RecoverReservations | src/lib/policyLedger.ts:250-276 | The loop recovers every row by its own rule and reports whether anything changed. |
| PolicyLedger.LedgerDoc.CommittedForCap | src/lib/policyLedger.ts:285-314 | The two loops compute the sum of verified facts and of rows, each id once. |
| PolicyLedger.LedgerDoc.EvaluateReserve | src/lib/policyLedger.ts:348-384 | One pass of the reserve loop reaches the decision of the specification. |
| ReserveAnswers.ReserveAnswersExactly | src/lib/policyLedger.ts:346-384 | The exact answer: a held id is answered by its amount; any other is denied if and only if, for some policy with a cap and a window, committed spend plus the amount is more than the cap, and is written otherwise. |
| ReserveAnswers.DeniedExactly | src/lib/policyLedger.ts:285-384 | With fitting facts, denied if and only if what weighs on some policy's window, held and spent rows and verified spends without a row, is with the amount more than its cap. |
| ReserveAnswers.RecoversExactly | src/lib/policyLedger.ts:241-276 | A RESERVED row is consumed exactly when its intent is verified with a time, released exactly when it failed or was never paid for an hour past expiry, with time and reason, and nothing else changes. |
| ReserveAnswers.MovesExactly | src/lib/policyLedger.ts:400-425 | A transition takes effect exactly on a RESERVED row, settles it as asked and touches no other. |
| LedgerAnswers.AnswersWereRight | src/lib/policyLedger.ts:329-427 | In every interleaving, each answer, reserved, already reserved, denied, conflict or moved, was right for a value stored while the call ran, and a write is the next stored value. |
| LedgerAnswers.GrantsAreCalls | src/lib/policyLedger.ts:329-392 | In every interleaving the calls that were told they reserved a hold are no more than the holds of it that were given up, and one more if it is stored. |
| PolicyLedger.RecoveryComposes | src/lib/policyLedger.ts:241-276 | Recovering twice at one time is recovering once, and recovering early and again later leaves what the later one alone would, but for the release times. |
| LedgerRuns.DecideProposes | src/lib/policyLedger.ts:329-427 | What a call proposes only settles rows forward, plus at most one new hold of an id that has none. |
| LedgerRuns.StepConsistent | src/lib/policyLedger.ts:329-427 | Every read, commit, failure and lost reply keeps the ledger invariant. |
| LedgerRuns.OneGrantPerHold | src/lib/policyLedger.ts:329-392 | In every interleaving, holds written equal holds given up plus the one stored, and calls that returned "reserved" are no more. |
| LedgerRuns.GrantWasStored | src/lib/policyLedger.ts:329-392 | A call that returned reserved or already_reserved had its row stored at some time while it ran. |
| LedgerRuns.AttemptsAreBounded | src/lib/policyLedger.ts:341-391 | A call never makes more attempts than its limit. |
| LedgerRetries.UnavailableAfterAll | src/lib/policyLedger.ts:341-391 | A reservation is told unavailable only after all its attempts or when one of its requests failed. |
| LedgerRetries.CommitsExactly | src/lib/policyLedger.ts:341-391 | A heard commit gives an answer that needs no write at once, replaces the ledger if it is still the one read, and otherwise stores nothing and tries again while attempts are left. |
| LedgerRetries.LostRepliesExactly | src/lib/policyLedger.ts:341-391 | A lost reply stores what a heard one would have, a failed commit stores nothing, and the call is told that it failed. |
| LedgerRuns.ConsumedIsFinal | src/lib/policyLedger.ts:250-276 | A CONSUMED row is the same row in every later stored value. |
| LedgerRuns.HoldsSurvive | src/lib/policyLedger.ts:241-427 | Over every run, a hold that each call spares is in every later stored value with its amount: one of a submitted payment, or an unfailed one before expiry plus the grace hour, that nobody releases. |
| LedgerRuns.AmountChangesExactly | src/lib/policyLedger.ts:346-384 | A call changes the amount of an unreleased row if and only if it reserves that id with another amount, recovery with its intents and clock releases the row, and no cap denies it. |
| LedgerRuns.EveryWriteHasItsCall | src/lib/policyLedger.ts:329-427 | Every value stored after the first was committed by one call, which had read and decided on exactly the value before it. |
| LedgerRuns.AmountsChangeOverRuns | src/lib/policyLedger.ts:329-427 | In every interleaving the amount of an unreleased row differs between two neighbouring stored values exactly under those guards of the writing call. |
| LedgerRuns.AmountCanChange | src/lib/policyLedger.ts:346-384 | A RESERVED row whose intent failed is re-reserved with another amount in one write. |
| LedgerRuns.UnstoredAmountCanChange | src/lib/policyLedger.ts:250-276 | A run of two calls in which an expired hold whose intent was never stored changes from 5 to 7 while RESERVED. |
| CapSafety.VerifiedDrop | src/lib/policyLedger.ts:285-300 | Leaving one id out of the verified sum takes away exactly what that id is worth. |
| CapSafety.CommittedIsWeight | src/lib/policyLedger.ts:285-314 | For fitting facts and no row ahead of the clock, the committed sum is exactly what weighs on the window: held and spent rows, and verified spends that no such row stands for. |
| CapSafety.WriteFits | src/lib/policyLedger.ts:366-384 | An accepted reservation fits under the cap together with everything that weighs on the window. |
| CapSafety.CapIsNeverExceeded | src/lib/policyLedger.ts:250-427 | Over every interleaving with true but possibly stale facts, RESERVED rows and CONSUMED rows in the window never sum to more than the cap. |
| CapSafety.CheckIsSoundExactly | src/lib/policyLedger.ts:285-314 | The check is sound for all fitting verified facts, all caps and all amounts if and only if no CONSUMED row is ahead of the clock. |
| CapSafety.ReservedVerifiedIsDropped | src/lib/policyLedger.ts:285-314 | A verified fact on a row that is still RESERVED takes the hold out of the sum: why facts have to fit. |
| CapSafety.SkewedClockOvershoots | src/lib/policyLedger.ts:310 | With a clock behind a consumedAt, 120 is held under a cap of 100. |
| PayRecords.PaidOrLate | src/lib/payStore.ts:594-631 | A proof never both supersedes a cancel and counts as late; superseding needs a block time before the cancel. |
| PayRecords.MergesExactly | src/lib/payStore.ts:567-588 | Registering again replaces an open row's terms and nothing of its progress; a PAID or cancelled row keeps its terms. |
| PayRecords.CancelsExactly | src/lib/payStore.ts:639-654 | A cancel takes effect exactly on an open row, before a V2 request expires, and records the caller's safe time or else the clock. |
| PayRecords.RequestIdsAreHex | src/lib/payStore.ts:558-561 | A V2 request id is 0x and 32 hexadecimal digits in either case. |
| PayRecords.SafeIntegers | src/lib/payStore.ts:594-631 | The safe integers are those strictly between minus and plus two to the 53rd. |
| PayRecords.PhasesExactly | src/lib/payStore.ts:502-520 | PAID shows before CANCELLED, either before an expiry that has come, and a viewed row differs from an open one. |
| PayStore.CreatedIsNew | src/lib/payStore.ts:673-709 | A row is created exactly when its token is new, no request of the merchant collides and the owner is below the limit, and the owner is then within the limit. |
| StoreEffects.CreatesExactly | src/lib/payStore.ts:673-709 | A registration merges exactly into the row of its token, is refused exactly for a repeated request and then for the owner's limit, and is created otherwise. |
| StoreEffects.CreateOperation | src/lib/payStore.ts:673-709 | What a registration stores and answers: the merged row in its place, the new row at the end and that it is new, or nothing and why. |
| StoreEffects.RowOperations | src/lib/payStore.ts:724-849 | A view, cancel or submitted hash changes exactly its own row as specified, exactly when the command names the row or the hash is well formed, and answers with it. |
| StoreEffects.UnknownToken | src/lib/payStore.ts:724-849 | On a token that is not stored, a view, cancel or submitted hash does nothing and answers so. |
| StoreEffects.UpsertsExactly | src/lib/payStore.ts:657-671 | An upsert merges into the row of its token or appends a new one, and changes nothing else. |
| PayStore.SubmittingTwice | src/lib/payStore.ts:825-849 | Submitting a hash twice is submitting it once; a row keeps at most three and is not paid by it. |
| PayStore.SubmitsExactly | src/lib/payStore.ts:825-849 | A hash is stored, in lower case and last, exactly when it is new to the row and there are fewer than three. |
| PayStoreFile.StoreFile.ApplySettlement | src/lib/payStore.ts:868-918 | The mutator with its two scans returns and writes what the settlement specification says, whose answers SettlesExactly and RefusesExactly pin. |
| PayStoreFile.StoreFile.TxIsUsed | src/lib/payStore.ts:885-891 | The scan finds another row paid with the transaction exactly when there is one. |
| PayStoreFile.StoreFile.RequestIsUsed | src/lib/payStore.ts:893-902 | The scan finds another paid row of the request exactly when there is one. |
| PayStoreFile.StoreFile.CreateRow | src/lib/payStore.ts:673-709 | Merge, duplicate, limit and create, by the loops of the source. |
| PayStoreFile.StoreFile.PreserveDurableFlags | src/lib/payStore.ts:258-281 | The guard loop keeps the paid, cancelled and late marks of every stored row. |
| StoreEffects.GuardRestores | src/lib/payStore.ts:258-281 | After any mutator, named or not, every stored payment, cancel and late mark that was cleared or whose row was dropped is back, and nothing else changes. |
| StoreEffects.GuardKeepsSections | src/lib/payStore.ts:283-294 | A section that a mutator leaves unset keeps what was stored. |
| PayStoreFile.StoreFile.EnqueuePaymentPaid | src/lib/settlement.ts:84-135 | The loop over endpoints enqueues as specified and returns the ids of exactly the rows it added. |
| PayStoreFile.StoreFile.FirstAttemptExists | src/lib/settlement.ts:71-78 | The scan finds a first-attempt row of the event and endpoint exactly when there is one. |
| SettlementRuns.TransitionShape | src/lib/payStore.ts:868-918 | A transition writes one unpaid row, and no other row was paid with its transaction or for its request. |
| SettlementAnswers.SettlesExactly | src/lib/payStore.ts:594-654 | A settlement moves a row to PAID if and only if the row is stored and unpaid, no other row has the transaction or, PAID, the request, and the proof pays it in time and before any cancel; the written row is given field by field; the same transaction again is accepted and moves nothing. |
| SettlementAnswers.RefusesExactly | src/lib/payStore.ts:868-918 | Each refusal code, not found, paid differently, transaction used, request used, late, rejected, has its exact condition. |
| SettlementAnswers.SettlementWrites | src/lib/payStore.ts:868-918 | The store after a settlement: the paid row or the late mark in its place, and every other row as it was. |
| SettlementAnswers.SettlementSections | src/lib/settlement.ts:146-164 | A settlement leaves every other section alone, and the deliveries too unless it enqueues a transition. |
| SettlementRuns.NonSettlementIsQuiet | src/lib/payStore.ts:567-849 | Create, upsert, view, cancel and submit change at most one row, never its settlement, or append an unpaid one. |
| SettlementRuns.StepKeepsRows | src/lib/payStore.ts:567-918 | Every operation keeps unique settlements and payment before cancel. |
| SettlementRuns.SettlementsAreUnique | src/lib/payStore.ts:868-918 | In every reachable store no two rows share a transaction, no two PAID rows a V2 request id; a PAID row is not cancelled and was mined before any recorded cancel; at most three submitted hashes. |
| SettlementRuns.PaidIsFrozen | src/lib/payStore.ts:567-654 | A PAID row keeps its transaction, block time and request in every later store. |
| SettlementRuns.PaidPhaseStays | src/lib/payStore.ts:502-520 | A row in phase PAID is in phase PAID in every later store, under any clock. |
| SettlementRuns.AtMostOneTransition | src/lib/payStore.ts:868-918 | Over any run a token moves to PAID at most once. |
| SettlementRuns.CancelAndSettleOrders | src/lib/payStore.ts:594-773 | For a cancel at C and a proof mined at b: if b < C both orders end PAID with the same transaction, otherwise the earlier cancel stands and the transaction is recorded as late. |
| Outbox.EnqueuedExactly | src/lib/settlement.ts:84-135 | An enqueue adds exactly one fresh first attempt per enabled, subscribed endpoint of the merchant, none for any other, and keeps every older row. |
| Outbox.EventsAreBacked | src/lib/settlement.ts:84-164 | Every payment.paid row names a transaction that some row is PAID with. |
| Outbox.TransitionAnnouncesOnce | src/lib/settlement.ts:146-164 | The commit that moves a row to PAID holds exactly one attempt-1 delivery per enabled, subscribed endpoint of the payee and none for any other, and none existed before. |
| Outbox.EventIdsDiffer | src/lib/settlement.ts:38-43 | Rows that are PAID have different event ids. |
| Outbox.EventIdsExactly | src/lib/settlement.ts:38-43 | Two event ids are one exactly when request, by id or else token, and transaction are the same in any spelling. |
| PayStoreCas.GuardsChangeNothing | src/lib/payStore.ts:258-294 | The section guards are the identity on what the named mutators write. |
| PayStoreCas.WritesAreAtomic | src/lib/payStore.ts:478-499 | Every write replaced exactly the store its mutator ran on. |
| PayStoreCas.AnswersAreAtomic | src/lib/payStore.ts:478-499 | An answer was computed on the store the call's one commit replaced, or on one it read and left unchanged; an exhausted, throwing or malformed call wrote nothing. |
| PayStoreCas.MalformedIsKept | src/lib/payStore.ts:308-322 | A stored text that does not parse is never overwritten. |
| PayStoreCas.StoreIsAtomicRun | src/lib/payStore.ts:478-499 | Concurrent calls refine a sequential run of the operations in commit order. |
| StoreRetries.ExhaustedAfterEight | src/lib/payStore.ts:478-499 | A mutation reads at most eight times and reports that it is exhausted only after eight. |
| StoreRetries.CommitsExactly | src/lib/payStore.ts:478-499 | A heard commit answers a throwing or idle mutator at once, replaces the text if it is still the one read, and otherwise stores nothing and tries again while attempts are left. |
| StoreRetries.LostRepliesExactly | src/lib/payStore.ts:478-499 | A lost reply stores what a heard one would have, a failed commit stores nothing, and only the answer is missing. |
| PayStoreCas.ConcurrentSettlementsAreUnique | src/lib/payStore.ts:478-918 | The settlement invariant holds in every stored value of every interleaving. |
| ConcurrentSettlement.HistoryIsOk | src/lib/payStore.ts:478-918 | Every stored value of a run that parses keeps the settlement invariant, and none after the first is malformed. |
| ConcurrentSettlement.PaidStaysStored | src/lib/payStore.ts:478-918 | A row that is PAID in one stored value is the same settlement at the same place in every later one. |
| ConcurrentSettlement.ToldIsCommitted | src/lib/payStore.ts:478-499 | A call that is told it moved a token to PAID did so with its own, only write. |
| ConcurrentSettlement.OneCallIsTold | src/lib/payStore.ts:478-918 | In every interleaving two calls that are told they moved the same token to PAID are the same call. |
| ConcurrentSettlement.ToldIsAnnounced | src/lib/settlement.ts:146-164 | The write of a call that is told so holds the paid row and exactly one first delivery per enabled, subscribed endpoint; the value it replaced held none. |
| Webhooks.RetriesExactly | src/lib/webhooks.ts:1083-1109 | Success exactly for a 2xx; a retry exactly for a retryable result below the fifth attempt, after 60, 300, 900 or 3600 seconds by attempt; failure otherwise; the result is recorded. |
| Webhooks.DeliverySection.HasDelivery | src/lib/webhooks.ts:812-826 | The scan finds a row exactly when there is one; for a first attempt any attempt counts. |
| Webhooks.DeliverySection.Enqueue | src/lib/webhooks.ts:832-871 | Inserts the pending row unless the event, endpoint and attempt are there. |
| Webhooks.DeliverySection.ClaimDelivery | src/lib/webhooks.ts:892-913 | Leases the row for a minute exactly when it is due, which ClaimWinsExactly says from the run. |
| Webhooks.DeliverySection.FinalizeDelivery | src/lib/webhooks.ts:916-940 | Writes exactly when the caller's token holds the lease. |
| LeaseRuns.OneRowPerAttempt | src/lib/webhooks.ts:812-871 | At any time one row per event, endpoint and attempt, and the attempt is 1 to 5. |
| LeaseRuns.ClaimsAreSeparated | src/lib/webhooks.ts:776-913 | Two claims of one delivery are separated by a finalize or by 60 seconds. |
| LeaseRuns.StaysLeased | src/lib/webhooks.ts:776-913 | Until someone finalizes it, a claimed row stays leased for the claimer's minute or longer. |
| LeaseRuns.StaleFinalizeWritesNothing | src/lib/webhooks.ts:916-940 | A finalize whose token was superseded or used changes nothing. |
| LeaseRuns.FinalizeHasItsClaim | src/lib/webhooks.ts:892-940 | A finalize that writes belongs to the latest claim, with no finalize since. |
| LeaseRuns.FinalizeWritesExactly | src/lib/webhooks.ts:892-940 | A claimer's finalize writes if and only if the row is still stored and its claim is still the latest. |
| LeaseRuns.StatusMovesForward | src/lib/webhooks.ts:783-940 | Success and failed rows never change again, and pending is never re-entered. |
| DueClaims.ClaimWinsExactly | src/lib/webhooks.ts:783-913 | Over every run, a claim of a stored row wins if and only if no other claimer's minute stands and nothing was finalized yet or the last finalize left it retrying with a next time that has come. |
| DueClaims.WinningClaimLeases | src/lib/webhooks.ts:892-913 | A winning claim leases the row to its token for 60 seconds and changes nothing else. |
| DueClaims.ScheduleIsItsHistory | src/lib/webhooks.ts:916-940 | A stored row is pending without a next time until a finalize writes it, and then carries the status and next time of the last one. |
| DueClaims.EnqueuesExactly | src/lib/webhooks.ts:832-871 | An enqueue adds its row exactly when there is none for the event, endpoint and attempt, and prunes old rows of that endpoint only. |
| DueClaims.FinalizesExactly | src/lib/webhooks.ts:916-940 | A finalize that writes ends the lease, records what it was given and changes nothing else. |
| WebhookWorker.PlansExactly | src/lib/webhooks.ts:1037-1310 | A worker sends a row it claimed exactly when the endpoint is known and enabled and the body parses, a retry as the next attempt below the fifth, and otherwise gives it up with the recorded reason. |
| WebhookWorker.FinalizesWhatItClaimed | src/lib/webhooks.ts:1037-1119 | In every run, a worker's finalize follows its own claim of the row that wrote, never says pending, and writes if and only if the row is stored and that claim is still the latest. |
| WebhookWorker.RetriesUseTheSlot | src/lib/webhooks.ts:1213-1310 | In every run, the next attempt is enqueued only below the fifth and for the same event; its prior row is then spent if and only if the worker's claim was still the latest or someone had spent it since. |
| WebhookWorker.RetryFromUnspentSlot | src/lib/webhooks.ts:1300-1310 | A run in which a slow worker enqueues the second attempt while the slot is leased to another worker, not spent. |
| WebhookWorker.SpentIsFinal | src/lib/webhooks.ts:783-795 | A retrying row without a next time never changes again. |
| WebhookWorker.SpentByFinalize | src/lib/webhooks.ts:783-940 | Since it was claimed, a row is spent if and only if some finalize that wrote has spent it. |
| WebhookWorker.SlotIsUsedOnce | src/lib/webhooks.ts:1300-1307 | After a worker has used a row's slot, nobody claims or finalizes that row again. |
| StoreLeases.DeliveriesAreARun | src/lib/settlement.ts:146-164 | The deliveries of a store run are what its delivery operations leave, so the lease results hold for the store. |
| StoreLeases.OneStoredRowPerAttempt | src/lib/settlement.ts:71-135 | In a store run too, one row per event, endpoint and attempt. |
| Receipts.LatestBeforeIs | src/lib/receipt.ts:263-269 | The window of a memo starts at the latest BeforeMemo with its index before it, and there is none exactly when no such event exists. |
| Receipts.BoundExactly | src/lib/receipt.ts:257-278 | A memo is bound exactly when one transfer and no second lies strictly between it and the latest BeforeMemo of its index, from its sender and with its calldata; and it is bound to that one. |
| Receipts.VerifierAccepts | src/lib/payPaid.ts:197-216 | The verifier's proof exists exactly when the first memo with the request's id pays it in time, at a safe time, and records that transaction, request and time. |
| Receipts.BindingAccepts | src/lib/agentPayments.ts:882-907 | The agent proof binds exactly when the certificate is the block's and signed and the first bound memo pays the request in time. |
| Receipts.DefinitionsAgree | src/lib/agentPayments.ts:882-907 | For a receipt with one Memo event the two definitions accept the same requests. |
| Receipts.VerifiedBindsExactly | src/lib/arcProof.ts:182-267 | An accepted receipt is bound if and only if no earlier memo is bound. |
| Receipts.BoundVerifiesExactly | src/lib/receipt.ts:280-288 | A bound receipt is accepted if and only if no earlier memo carries the same id. |
| Receipts.SecondMemoIsNotBound | src/lib/receipt.ts:290-327 | Two payments in one transaction on which the definitions differ. |
| Receipts.ExactIsSettled | src/lib/receipt.ts:290-458 | exactForRequest implies that the plain parser reports a valid settlement. |
| Receipts.RevertedIsRefused | src/lib/receipt.ts:348-366 | A reverted receipt is refused by both, whatever its logs say. |
| ReceiptReasons.RequestReasons | src/lib/receipt.ts:386-458 | Each reason that concerns the request, reverted, structure, cancelled, chain, signature, expired, has its exact condition. |
| ReceiptReasons.PaymentReasons | src/lib/receipt.ts:280-346 | For a request in order, each reason that concerns the payment, memo, target, settlement, recipient, amount, has its exact condition on the first memo with the id. |
| ReceiptReasons.BindingReasons | src/lib/agentPayments.ts:882-907 | Each reason of the agent proof has its exact condition, and three of its codes cannot come up. |
| ReceiptReasons.ParsesExactly | src/lib/receipt.ts:290-327 | The plain parser reports a settlement exactly when some memo is bound, with the recipient, amount, id and sender of the first. |
| SessionClient.Coordinator.SetConnectedWallet | src/lib/workspaceSessionClient.ts:214-225 | A change of wallet drops session, flight and decline and starts a new generation. |
| SessionClient.Coordinator.RevokeServerSession | src/lib/workspaceSessionClient.ts:227-239 | A logout becomes the pending one, and the earlier ones stay on their way. |
| SessionClient.Coordinator.Switch | src/lib/workspaceSessionClient.ts:245-249 | A switch revokes the server session exactly when a wallet was connected before. |
| SessionClient.Coordinator.SignOutNow | src/lib/workspaceSessionClient.ts:252-259 | Signing out clears the client state before the request leaves. |
| SessionClient.Coordinator.EnsureSession | src/lib/workspaceSessionClient.ts:164-188 | Callers share the flight of the connected wallet; a new one starts only when there is none. |
| SessionClient.StepSafe | src/lib/workspaceSessionClient.ts:98-259 | Every block between two awaits keeps the session invariant, in any order. |
| SessionClient.SessionBelongsToWallet | src/lib/workspaceSessionClient.ts:85-161 | A session belongs to the connected wallet, and no logout is pending. |
| SessionProvenance.SessionHasItsReply | src/lib/workspaceSessionClient.ts:98-161 | Over every run, a session comes from one reply to a flight of the connected wallet and the present generation: a probe reply that was ok, named the wallet and was not expired, or a login reply that was ok and followed an accepted challenge and signature in that flight. |
| SessionProvenance.SessionMovesExactly | src/lib/workspaceSessionClient.ts:98-259 | Exactly such replies set a session, with the reply's expiry and a new epoch, and exactly a change of wallet, a sign-out or a first 401 to a request that used it end it. |
| SessionProvenance.PhasesAreEarned | src/lib/workspaceSessionClient.ts:110-150 | A flight signs only after an ok challenge, and logs in only after an ok challenge and then a signature. |
| SessionCallers.EnsuresExactly | src/lib/workspaceSessionClient.ts:164-188 | In every reachable state ensureSession resolves exactly with an unexpired session, joins the flight under way, refuses exactly without a wallet or after a decline, and otherwise starts a flight that waits for a pending logout. |
| SessionCallers.CallerMovesExactly | src/lib/workspaceSessionClient.ts:194-211 | Each step of workspaceFetch: it requests exactly after a successful sign-in of its own wallet and generation, hands back exactly what is no first 401, and signs in again once. |
| SessionCallers.DeclinesExactly | src/lib/workspaceSessionClient.ts:130-161 | A decline is remembered exactly after a refused signature or a sign-out and forgotten exactly by another wallet or a login. |
| SessionClient.OneLiveFlight | src/lib/workspaceSessionClient.ts:164-188 | At most one sign-in flight is live per wallet generation. |
| SessionClient.AnswersAreCurrent | src/lib/workspaceSessionClient.ts:194-211 | Over every run, workspaceFetch yields a response only if wallet and generation were the same at every moment from its call to its answer. |
| SessionClient.AnswerHasItsCall | src/lib/workspaceSessionClient.ts:194-211 | Every response in a run has the event that called for it and the event that answered. |
| SessionClient.GoesStrayExactly | src/lib/workspaceSessionClient.ts:227-239 | A logout is left behind exactly when another starts while it is pending. |
| SessionClient.NoStrays | src/lib/workspaceSessionClient.ts:98-101 | Without such overlaps no logout is on its way while there is a session. |
| SessionClient.StrayLogoutOutlivesSignIn | src/lib/workspaceSessionClient.ts:227-259 | Two sign-outs and a sign-in that end with a session and the first logout on its way. |
| RateLimit.FixedWindowLimiter.AllowCall | src/lib/publicRateLimit.ts:72-92 | The decision and the new buckets are those of the specification. |
| RateAdmission.AdmitsExactly | src/lib/publicRateLimit.ts:72-112 | Over every run, a request is admitted if and only if its class is known and, in the latest windows of the class and of the key, fewer than the limit were admitted. |
| RateLimit.FixedWindowLimiter.Live | src/lib/publicRateLimit.ts:104-112 | Drops the slot's bucket exactly when its window has run out. |
| RateLimit.FixedWindowLimiter.Sweep | src/lib/publicRateLimit.ts:114-119 | Keeps exactly the buckets younger than the longest window. |
| RateLimit.LongestIsMax | src/lib/publicRateLimit.ts:114-119 | The age a sweep allows is the longest window of the rules. |
| RateLimitRuns.StepKeeps | src/lib/publicRateLimit.ts:72-119 | Every call keeps the books: a bucket is within its limit and a new one starts a window after the last. |
| RateLimitRuns.AdmitsAtMostTwice | src/lib/publicRateLimit.ts:72-92 | Any window-long stretch admits at most twice the limit, of one key and of one class. |
| RateLimitRuns.LiveKeysBounded | src/lib/publicRateLimit.ts:72-112 | A class never holds more than twice its global limit of live per-key buckets. |
| RateLimitRuns.SizeBounded | src/lib/publicRateLimit.ts:72-119 | Whatever keys arrive, the map stays below a bound that depends on the rules alone. |
| WalletNonce.WalletAuthSection.PruneExpired | src/lib/walletNonce.ts:37-43 | Drops exactly the expired nonces. |
| WalletNonce.WalletAuthSection.Consume | src/lib/walletNonce.ts:49-73 | Takes the nonce exactly when it is well formed and not live, and keeps it for 360 seconds. |
| WorkspaceLogin.RetentionCovers | src/lib/workspaceSession.ts:427-431 | An accepted challenge expires no later than its nonce is forgotten. |
| WorkspaceLogin.LoginSucceedsExactly | src/lib/workspaceSession.ts:400-453 | With a clock that does not go back, a login makes a session if and only if its challenge is for this host and origin, in time, signed by its address, and its nonce was not taken in the 360 seconds before. |
| WorkspaceLogin.SingleUse | src/lib/workspaceSession.ts:425-453 | With a clock that does not go back, no challenge makes two sessions. |
| WorkspaceLogin.ReplayedExactly | src/lib/walletNonce.ts:49-73 | With commits out of clock order, a second use succeeds exactly when a commit in between ran at or past the nonce's expiry. |
| WorkspaceLogin.SlowReplay | src/lib/walletNonce.ts:49-73 | Such a replay. |
| LogPages.LogBlockPages | src/lib/logPages.ts:12-28 | The loop terminates with the specified pages. |
| LogPages.PagesPartition | src/lib/logPages.ts:12-28 | The pages list every block of the window once, newest first, and none spans more than allowed. |
| LogPages.PagesAreFull | src/lib/logPages.ts:12-28 | Every page but the oldest spans as much as it may. |
| LogPages.LookbackLogPages | src/lib/payPaid.ts:31-43 | The payment lookback covers the last 400,000 blocks and the latest once each, in pages the node accepts. |
| LogPages.ScanPage | src/lib/payPaid.ts:269-272 | One page is scanned newest first and stops at the first accepted log. |
| LogPages.ScanMemoLogs | src/lib/payPaid.ts:254-275 | The paged scan returns what one newest-to-oldest scan of the whole window returns. |
| Amounts.IntegerRoundTrip | sdk/src/amounts.ts:11-45 | Every canonical positive integer survives printing and reading. |
| Amounts.AmountRoundTrip | sdk/src/amounts.ts:11-45 | Every accepted amount comes back in its canonical decimal form. |
| Amounts.AcceptsExactly | sdk/src/amounts.ts:11-30 | The SDK accepts exactly a whole part without leading zeros with at most six digits after a point, not all zero, and gives whole times a million plus the fraction in millionths. |
| Amounts.TrimsExactly | sdk/src/amounts.ts:11-45 | Exactly the white space at both ends is taken off before parsing. |
| Amounts.ParsersAgreeExactly | src/lib/finalRequest.ts:138-163 | The server accepts exactly what the SDK accepts and does not end in a point, with the same value. |

## Left out

- Values of `formatBits` and `versionBits` (src/lib/paymentQr.ts:78-101): `BuildMatrix` and the patterns take the 15 and 18 bits as arguments.
- UTF-8 encoding of the text: `BuildMatrix` takes its bytes. SVG output is user interface.
- Zigzag.OrderIsExact: states odd sizes from 7 up, because size 5 has no column 6 to skip and the loop would miss column 0; symbols start at 21.
- I/O behind the stores: Redis, files, locks between processes, HTTP, DNS and Arc RPC are the events of a run (a read, a commit, a failure, a lost reply) or inputs.
- The single-instance file ledger and the ledger mode "unavailable", which never reads or writes.
- Reservation and intent ids are taken to be in lower case, as request ids are stored; `maxAttempts` is a parameter of each ledger call.
- CapSafety.CapIsNeverExceeded: one policy's cap and window are fixed over the run, the facts given to calls are true though possibly stale, and no CONSUMED row is ahead of the clock of the call that writes, without which the claim is false (see CheckIsSoundExactly).
- SettlementRuns.SettlementsAreUnique: registrations bring unpaid rows that are not cancelled; `upsertRecord` itself takes any row.
- SettlementRuns.PaidIsFrozen: holds for the named mutators; an arbitrary mutator can replace a `paidTx`, which the guards restore only when it was cleared.
- `writePayStoreBlob`, `markPaid` and `reconcilePaymentRecord`: deprecated or off the live settlement path.
- The create cap and the duplicate check are not claimed as invariants, because an upsert can break both.
- A transaction hash is never the empty string, which the source would read as no transaction.
- Field values null and absent are one value, so a write that only turns one into the other counts as no write; JSON key order is not modelled.
- Which rows `pruneDeliveries` drops: any set of rows of the endpoint may go, so no row is claimed to survive until it is delivered, and the number of HTTP sends is not bounded.
- The order in which `processDueWebhookDeliveries` works through its snapshot: a run is any sequence of enqueues, claims and finalizes, a retry starting from any row that was once stored; endpoint look-ups, bodies and HTTP results are inputs.
- Webhook secrets, signatures, URL and address checks, API keys, scopes, headers and cookies.
- ABI decoding, checksummed addresses and `parseUnits` of the chain library: receipts hold decoded events in canonical spelling, amounts are base units.
- V1 payment matching, which is a weaker legacy rule without window binding.
- The `status` and listeners of the session client; no claim is made that `declined` belongs to the present generation, because it is written without that check.
- The distributed limiter and the per-route constants; rules are any positive rules.
- The session store, cookies and the wording of the sign-in message; an address that is not one is refused before the nonce is touched.
- Errors of `getLogs` and of receipt look-ups, which end a scan.
- Escrow transitions, policy rules, agent intents' life cycle, analytics, checkout state and dashboards: small tables or single-loop counts of the same kinds as proved here.
