# Verification of the lead pipeline core

This project models the parts of the automation suite where a mistake costs money, loses data or weakens a guard, and
proves properties of them in Dafny. `dafny verify dfyconfig.toml` checks everything.

The system collects business leads from providers, enriches them with paid calls, stores facts with provenance, finds
decision makers and contacts under budgets, and renders demo assets. The model covers:

- **Collection** (`LeadCollection`, `LeadCollectionRuns`, `LeadCollectionHistory`): candidates are processed one
  transaction at a time against leads, entities, observations, facts and events; runs stop at a cap, on a failed page or
  on an exception, and are rerun from page 1. `ProspectProcessor` sits on top and makes paid calls, sequentially and
  interleaved.
- **Paid loops** (`AtomicFile`, `Discovery`, `DiscoverySafety`, `DiscoveryTurns`, `ContactCascade`,
  `ContactCascadeStops`): two state files written in a fixed order under crashes and thrown errors, and a provider
  cascade under run-wide caps.
- **Fact precedence** (`GooglePlaceFacts`, `GooglePlaceFields`, `GooglePlaceFactRaces`, `FactWriteStatements`): two
  writers over one "one current fact per lead and type" table, field by field, one after the other, overlapping, and
  statement by statement.
- **The guarded fetch** (`IpGuard`, `Ipv4Text`, `Ipv6Text`, `Ipv6Dotted`, `NetworkErrors`, `NetworkErrorCodes`,
  `NetworkErrorWrapping`, `SafeFetch`, `SafeFetchTrail`, `HttpRetry`): CIDR arithmetic, IPv6 text, the error-graph walk
  and its classification, the redirect loop, and bounded retries.
- **Exact algorithms** (`Bits`, `Crc32`, `CrcPolynomial`, `CrcBursts`, `Png`, `PngColour`, `PngColourCss`,
  `CanonicalJson`, `PercentCoding`, `FormBody`, `FormFields`, `Rerank`, `RerankOrder`): CRC-32 against polynomial
  division, PNG assembly, colour conversion, canonical key order, form decoding, and stable re-ranking.

Imperative code is modelled as methods and classes proved against specification functions; the properties are then
lemmas about those functions, over all inputs, runs or interleavings. Services, clocks, DNS, the wire, compression and
text normalisation are parameters, so every statement holds for whatever they answer.

Some promises hold only under a condition. The model keeps the code as it is and states the condition exactly, with a
concrete failing input where it is not plain from the condition: the website counter of the prospect processor
(`FactsReadFails`), composition of runs in which a candidate throws (`ComposesIffFaultFree`), verified counts when a row
write is lost (`VerifiedMeansWritten`), fact precedence when transactions overlap (`DisplacesIff`,
`MissingOnlyFailsIff`), the 32-node limit of the error walk (`StageSurvivesIff`, `ShapeSurvivesIff`), the textual IPv6
prefixes (`CanonicalVerdictIff`, `DottedVerdictIff`), empty strings from the resolver (`CallIsSafeIff`), statuses
outside 100..599 and a maxRedirects below -1 (`DiagnosticIsStorable`), the form field named `__proto__`
(`RoundTripIff`), the names-only "reordered" flag (`ConfirmedRun`, `SameNameStaysOutOfOrder`), and colours for a
negative base hue (`ImageInRangeIff`).

## Model

| member | source | states |
|---|---|---|
| LeadCollection.LeadStore.WriteFactInputs | src/pipeline/collect-leads.ts:306-308 | writing the provenance facts one by one leaves what the fact specification says, unless a write throws |
| LeadCollection.LeadStore.ProcessCandidate | src/pipeline/collect-leads.ts:182-330 | step by step, the committed tables and outcome are those of the one-candidate specification; a throw can leave any part undone |
| LeadCollection.LeadStore.Transaction | src/pipeline/ports.ts:48-55 | a candidate either commits its whole effect or, when any of its writes throws, leaves every table as it was |
| LeadCollection.CountPage | src/pipeline/collect-leads.ts:102-128 | which page events stop the run, and what each leaves in the page, request and interruption counters |
| LeadCollection.CollectPage | src/pipeline/collect-leads.ts:130-167 | the candidate loop with cap and rollback equals the run specification on that page |
| LeadCollection.CollectPages | src/pipeline/collect-leads.ts:101-177 | the page loop with its three ways of stopping early equals the page specification from any summary |
| LeadCollection.CollectLeads | src/pipeline/collect-leads.ts:79-180 | a call starts from an empty summary and leaves what the run specification says |
| LeadCollectionRuns.RunInvariant | src/pipeline/collect-leads.ts:99-167 | over every run with any rollbacks: place ids stay unique and point at existing leads; leads, entities and observations added equal their counters; attempts equal the seven counters; the cap is never exceeded |
| LeadCollectionRuns.StepKeepsConsistent | src/persistence/schema.ts:115-118 | no candidate breaks the unique (provider, place id) index or the lead reference |
| LeadCollectionRuns.ProcessedOnce | src/pipeline/collect-leads.ts:208-228 | once processed, a candidate stays known: whatever runs follow, with any pages, caps and faults, processing it again changes no lead, entity or fact |
| LeadCollectionRuns.RunsCompose | src/pipeline/collect-leads.ts:101-177 | when nothing failed in the three runs, a run with cap n and a rerun from page 1 with cap m leave the leads, entities and facts of one run with cap n+m |
| LeadCollectionRuns.ComposesIffFaultFree | src/pipeline/collect-leads.ts:136-166 | a first run composes with a rerun for every database, stream, decision function and pair of caps if and only if its schedule strikes no candidate |
| LeadCollectionRuns.FaultBreaksComposition | src/pipeline/collect-leads.ts:160-166 | for every fault, at whatever attempt and write, a stream and an environment in which two runs leave something else than one |
| LeadCollectionRuns.InterruptedRunResumes | src/pipeline/collect-leads.ts:124-128 | a run cut short anywhere and rerun from page 1 with what is left of its cap leaves what the uncut run leaves, when nothing failed in them |
| LeadCollectionRuns.InterruptedRunExtends | src/pipeline/collect-leads.ts:124-128 | with any other positive cap m the rerun leaves what one run with the leads already made plus m leaves |
| LeadCollectionRuns.CleanRunCoversStream | src/pipeline/collect-leads.ts:101-177 | whatever earlier runs left, a run in which nothing failed and which its cap did not stop ends with every visible candidate known |
| LeadCollectionRuns.ThrowingCandidateBreaksComposition | src/pipeline/collect-leads.ts:160-166 | a concrete stream where one throwing candidate makes two runs end in different leads than one |
| LeadCollectionHistory.ProcessLeaves | src/pipeline/collect-leads.ts:182-330 | for every candidate and database, every row of every case: which lead, facts, entity, observation tier and event a rejected, known, unique, branch, duplicate or ambiguous candidate leaves, and that nothing else changes |
| LeadCollectionHistory.RunIsChain | src/pipeline/collect-leads.ts:101-177 | every run is, attempt by attempt over the candidates its pages hand over in order, either those rows or, where a fault strikes, nothing |
| LeadCollectionHistory.RunAddsOnlyNewLeads | src/pipeline/collect-leads.ts:300-311 | over every run with any faults: each fact of a lead that was there before keeps its value and none is added; each new lead has of every type the last value of the candidate it was made from; it is flagged and linked exactly when the decision was ambiguous |
| LeadCollectionHistory.CountersMatchEvents | src/pipeline/collect-leads.ts:130-167 | over every run each outcome counter is the number of events of its own kind that the run appended |
| LeadCollectionHistory.PagesAreCounted | src/pipeline/collect-leads.ts:102-128 | pages, requests and the interruption flag are read off the pages the provider gave, whatever the candidates did |
| ProspectProcessor.Processor.Process | src/pipeline/prospect-candidate-processor.ts:37-43 | on every normal and exception path reported details requests equal those sent, and website verifications equal those attempted except exactly when the facts read throws; each outcome is reported exactly in its case, with the lead it is about |
| ProspectProcessor.Processor.ProcessCandidate | src/pipeline/prospect-candidate-processor.ts:45-82 | the same accounting at every return and throw, and which of the nine outcomes each path yields |
| ProspectProcessor.CountsUnsentVerification | src/pipeline/prospect-candidate-processor.ts:71-72 | a concrete call whose facts read throws: it reports one website verification and none was sent, because the counter is set before the facts are read |
| ProspectProcessor.StepKeepsInv | src/pipeline/prospect-candidate-processor.ts:46-58 | every step of every call keeps: requests are distinct, each sent by the call that created the place, and reports honest |
| ProspectProcessor.AtMostOneRequestPerPlace | src/pipeline/prospect-candidate-processor.ts:37-81 | over all interleavings of any calls and other writers, each trimmed place id gets at most one details request, failed ones included, and finished calls report what they sent |
| ProspectProcessor.LoserPaysNothing | src/pipeline/prospect-candidate-processor.ts:51-52 | a call whose transaction loses on the unique index never sends a request |
| ProspectProcessor.TransactionAlone | src/pipeline/prospect-candidate-processor.ts:51-52 | run without interruption, the begin and commit steps are one collection transaction: the same verdict and the same place ids, unchanged when it throws |
| ProspectProcessor.AloneIsProcess | src/pipeline/prospect-candidate-processor.ts:45-82 | run alone, the steps send the one request exactly when the processor pays for details, and report that number |
| AtomicFile.File.Write | src/utils/atomic-write.ts:13-18 | wherever the write is cut, the target holds its complete old contents or the complete new ones |
| Discovery.SelectIsFirstPassing | src/cli/commands/discover-decision-makers.ts:177-200 | the selection is the first leads that pass the guards, in scope order, up to the cap, and one lead when the cap is below one |
| Discovery.Workspace.WriteCandidates | src/cli/commands/discover-decision-makers.ts:319-324 | only a lead with accepted candidates changes candidates.json, completely or not at all |
| Discovery.Workspace.WriteResults | src/cli/commands/discover-decision-makers.ts:343-345 | results.json gains this attempt's record completely or not at all |
| Discovery.Workspace.ExtractAndRecord | src/cli/commands/discover-decision-makers.ts:287-345 | payment, then candidates, then record, with a crash possible between and inside each |
| Discovery.Workspace.Discover | src/cli/commands/discover-decision-makers.ts:237-349 | the loop leaves complete files and the counters and ledger of the run specification, killed at any point or not |
| DiscoverySafety.RunEffect | src/cli/commands/discover-decision-makers.ts:237-349 | per lead: at most one payment, only where allowed, other leads untouched, candidates replaced only by paid-for ones |
| DiscoverySafety.RunBudget | src/cli/commands/discover-decision-makers.ts:238-298 | paid attempts never exceed the limit; provider calls never exceed MAX-1 plus the largest extraction, and are zero when MAX is zero |
| DiscoverySafety.RunLeavesSettledLeads | src/cli/commands/discover-decision-makers.ts:269-305 | page-less, manifest-skipped and cost-blocked leads are neither charged nor recorded, and a non-empty candidates entry is never emptied |
| DiscoverySafety.UnrecordedPayments | src/cli/commands/discover-decision-makers.ts:287-345 | over every history of runs, payments missing from the manifest number at most the crashes and thrown errors |
| DiscoverySafety.FoundOncePaidNeverAgain | src/cli/commands/discover-decision-makers.ts:193-196 | once a lead's candidates are on disk no later run without refresh pays for it or changes them, whatever runs came before |
| DiscoverySafety.PaymentsPerChange | src/domain/decision-makers/results-manifest.ts:142-213 | over every history, whatever evidence is fetched when: a lead is paid for at most twice each time its evidence was new, plus once per crash or error and once per refresh run |
| DiscoverySafety.PaymentsPerEvidence | src/domain/decision-makers/results-manifest.ts:142-213 | while its evidence is unchanged every payment is on record or lost to a crash or error, and without refresh there are at most two on record |
| DiscoveryTurns.TurnDoesTell | src/cli/commands/discover-decision-makers.ts:237-345 | for every state of a run, what one lead's turn charges, records, counts and ends, in each of its cases |
| DiscoveryTurns.ChargedIff | src/domain/decision-makers/results-manifest.ts:142-158 | under both budgets a lead is charged exactly when its extraction is billed and the run is a refresh, it has no record, its record is of other evidence, or it records a provider error with fewer than two attempts |
| DiscoveryTurns.RunIsTurns | src/cli/commands/discover-decision-makers.ts:177-349 | a run is those turns over the first passing leads, in order, ended only by a turn that stops or aborts it |
| DiscoveryTurns.AnsweredIsNotPaidAgain | src/domain/decision-makers/results-manifest.ts:146-156 | over every history without refresh, once a lead's evidence is on record as found, no candidate, schema invalid or twice failed, no later run pays for it or changes its record while the evidence is unchanged |
| ContactCascade.CascadeLead | src/cli/commands/contact-resolve-batch.ts:226-269 | the per-lead cascade loop, its exits and its row write equal the cascade specification |
| ContactCascade.ResolveBatch | src/cli/commands/contact-resolve-batch.ts:217-299 | the labelled batch loop equals the batch specification, and the fallback writes stop at the first that throws, which ends the command |
| ContactCascade.BudgetIsKept | src/cli/commands/contact-resolve-batch.ts:231-242 | when each call stays within its per-lead caps, counted requests and credits never pass the run-wide caps |
| ContactCascade.ProvidersCalled | src/cli/commands/contact-resolve-batch.ts:230-269 | the providers called for a lead are a prefix of its available steps, ending at the first verified answer or error |
| ContactCascade.CountsAreAPrefix | src/cli/commands/contact-resolve-batch.ts:225-282 | verified, unresolved and errored leads together are exactly a prefix of the selection; the rest are untouched |
| ContactCascade.VerifiedRows | src/cli/commands/contact-resolve-batch.ts:245-257 | the verified count is rows written plus rows lost to a throwing write, and the table gains exactly the rows written |
| ContactCascade.LostRowsAreLosingCalls | src/cli/commands/contact-resolve-batch.ts:245-267 | a lead's row is lost exactly when some call made for it verified a person and the write of the row threw |
| ContactCascade.VerifiedMeansWritten | src/cli/commands/contact-resolve-batch.ts:273-275 | with distinct leads the verified count equals the rows written exactly when no call made verified a person whose row write threw |
| ContactCascade.LostRowIsCounted | src/cli/commands/contact-resolve-batch.ts:245-275 | a concrete batch that reports one verified contact and writes no row |
| ContactCascade.FallbackReplacesNothing | src/cli/commands/contact-resolve-batch.ts:284-299 | with fallbacks disjoint from the selection a generic inbox replaces no resolution, and exactly the fallbacks before the first whose write throws are resolved |
| ContactCascadeStops.HowFarABatchGoes | src/cli/commands/contact-resolve-batch.ts:225-282 | for every batch exactly how far it gets through the steps it would take with endless means: each step had room for one more call at its caps, calls, spend and labels are read off the steps passed, and it stops early exactly when the next has no room or, with the flag set, the last verified a contact |
| ContactCascadeStops.FirstVerifiedIsTheLast | src/cli/commands/contact-resolve-batch.ts:278-281 | with --stop-after-first-verified at most one lead is verified, by the very last call, and the run stops there |
| GooglePlaceFacts.FactStore.WriteCurrentFact | src/persistence/repositories/lead-facts.repo.ts:40-82 | demote, insert and link leave exactly one new current row and every other row of other types unchanged |
| GooglePlaceFacts.FactStore.Persist | src/persistence/google-place-details-store.ts:150-172 | the loop equals the persist specification, returns the rows it added, and writes nothing for a lead not bound to the place |
| GooglePlaceFacts.FactStore.BackfillMissing | src/persistence/google-place-details-store.ts:122-147 | the loop equals the backfill specification with its written and skipped lists, and writes nothing for an unbound lead |
| GooglePlaceFacts.WriteKeepsChain | src/persistence/repositories/lead-facts.repo.ts:40-82 | each (lead, type) history stays one chain: every row superseded by the next one, the last current |
| GooglePlaceFacts.OneCurrentFact | src/persistence/schema.ts:303-307 | chained tables satisfy the partial unique index |
| GooglePlaceFacts.GoogleKinds | src/persistence/google-place-details-store.ts:24-63 | persist is given at most one fact per type |
| GooglePlaceFacts.BackfillKinds | src/persistence/google-place-details-store.ts:81-103 | backfill is given at most one fact per type, and only rating, review_count and phone |
| GooglePlaceFacts.PersistSafe | src/persistence/google-place-details-store.ts:165-167 | persist keeps the chains and changes no current row of another source and no row of another lead |
| GooglePlaceFacts.PersistLeavesUnsupplied | src/persistence/google-place-details-store.ts:157-167 | types that were not supplied keep their rows and their current fact |
| GooglePlaceFacts.PersistSettles | src/persistence/google-place-details-store.ts:165-168 | afterwards every supplied type's current fact is another source's or holds the supplied value |
| GooglePlaceFacts.PersistTwice | src/persistence/google-place-details-store.ts:150-172 | repeating persist with the same details writes nothing |
| GooglePlaceFields.PersistByField | src/persistence/google-place-details-store.ts:24-63 | persist type by type: each of the eleven depends on its own field alone, blank or absent fields and an unapproved phone leave rows and current fact as they were, another source's current fact or the same value stands, and anything else is replaced by the trimmed field |
| GooglePlaceFacts.BackfillExactly | src/persistence/google-place-details-store.ts:135-145 | the whole effect read off the starting table: one row appended per supplied type without a current fact, nothing else |
| GooglePlaceFacts.BackfillIsMissingOnly | src/persistence/google-place-details-store.ts:122-147 | existing rows keep every field, appended rows are current Google rows of the three types that were missing, and written plus skipped are exactly the supplied types |
| GooglePlaceFacts.BackfillTwice | src/persistence/google-place-details-store.ts:122-147 | repeating backfill writes nothing and skips every supplied type |
| GooglePlaceFields.BackfillByField | src/persistence/google-place-details-store.ts:81-147 | backfill type by type: rating, review count and phone depend on their own fields, are written exactly when not blank and missing, skipped exactly when not blank and present; every other type is left alone |
| GooglePlaceFacts.HistoryKeepsPrecedence | src/persistence/google-place-details-store.ts:112-173 | over any serial history of both writers and writes of other provenance: at most one current fact per lead and type, and a non-Google current fact stays until a non-Google write replaces it |
| GooglePlaceFactRaces.OneCurrentFactAlways | src/persistence/repositories/lead-facts.repo.ts:40-82 | at most one current fact per lead and type in every state of every interleaving of checks and whole writes |
| GooglePlaceFactRaces.DisplacesIff | src/persistence/google-place-details-store.ts:165-168 | exactly when a Google writer displaces another source's fact: its read decided to write, and the last write of that lead and type committed between read and write came from another source |
| GooglePlaceFactRaces.MissingOnlyFailsIff | src/persistence/google-place-details-store.ts:138-143 | exactly when backfillMissing overwrites a current fact: its read found the type missing, and something wrote it before the write |
| GooglePlaceFactRaces.ManualFactCanBeDisplaced | src/persistence/google-place-details-store.ts:138-168 | for either writer a concrete interleaving in which a manual fact is displaced |
| GooglePlaceFactRaces.AloneIsPersist | src/persistence/google-place-details-store.ts:157-170 | without overlap the read and write steps leave what persist leaves |
| GooglePlaceFactRaces.AloneIsBackfill | src/persistence/google-place-details-store.ts:135-145 | without overlap the read and write steps leave what backfillMissing leaves |
| FactWriteStatements.StepKeepsInv | src/persistence/repositories/lead-facts.repo.ts:44-79 | every statement of every overlapping transaction keeps the chains, and no two transactions ever hold uncommitted changes of one lead and type |
| FactWriteStatements.CommitIsAtomic | src/persistence/repositories/lead-facts.repo.ts:40-82 | a commit leaves what its transaction's writes give one after the other as whole writes, and each replaces exactly the row its demote saw as current |
| FactWriteStatements.OneCurrentFactBetweenStatements | src/persistence/schema.ts:303-307 | between any two statements of any interleaving at most one committed fact per lead and type is current |
| FactWriteStatements.InsertFailsIff | src/persistence/repositories/lead-facts.repo.ts:55-66 | a writer fails on the unique index exactly when a write of the same lead and type was committed since its demote's snapshot |
| FactWriteStatements.StatementsAreWrites | src/persistence/repositories/lead-facts.repo.ts:40-82 | every interleaving of statements commits the tables of some interleaving of whole writes |
| Crc32.ComputeCrc | src/fixtures/demo-v2-images.ts:12-21 | the byte and bit loops compute the complemented register after all rounds |
| Crc32.RoundInjective | src/fixtures/demo-v2-images.ts:17 | a bit round never maps two words to one |
| Crc32.RoundSurjective | src/fixtures/demo-v2-images.ts:17 | every word is the result of a round, so a round permutes the 32-bit words |
| Crc32.RegisterInjective | src/fixtures/demo-v2-images.ts:13-19 | equal messages from different registers end in different registers |
| Crc32.RegisterAtOnce | src/fixtures/demo-v2-images.ts:14-19 | up to four bytes can be folded in at once, before any of their rounds |
| Crc32.BurstIsDetected | src/fixtures/demo-v2-images.ts:12-21 | two messages that agree outside one window of at most four bytes have equal checksums only when they are equal |
| CrcBursts.BitBurstIsDetected | src/fixtures/demo-v2-images.ts:12-21 | the same for any window of at most 32 bits in transmission order, at whatever bit it starts |
| CrcPolynomial.FeedPoly | src/fixtures/demo-v2-images.ts:17 | a bit round multiplies by x, adds the message bit at x^32 and reduces once by the generator |
| CrcPolynomial.RegisterIsReduced | src/fixtures/demo-v2-images.ts:14-19 | after every bit the register is the conditioned message so far, reduced by a quotient that is given |
| CrcPolynomial.CrcIsRemainder | src/fixtures/demo-v2-images.ts:12-21 | the checksum is the complement of the GF(2) remainder with ones pre- and post-conditioning (section 3.4 of RFC 2083) |
| CrcPolynomial.RemainderUnique | src/fixtures/demo-v2-images.ts:12-21 | division by the generator has one remainder, so the characterisation determines the checksum |
| Png.WriteUInt32BE | src/fixtures/demo-v2-images.ts:111-112 | the four bytes at the offset become the big-endian value, the rest of the buffer is unchanged |
| Png.Be32RoundTrip | src/fixtures/demo-v2-render-fixture.ts:118-123 | a big-endian number reads back from any place in a buffer |
| Png.BuildChunk | src/fixtures/demo-v2-images.ts:23-30 | length, type, data and checksum laid out as in section 3.2 of RFC 2083 |
| Png.ReadChunkOf | src/fixtures/demo-v2-images.ts:23-30 | a decoder reads back type and data of a built chunk, checksum valid, and finds the rest of the stream |
| Png.CorruptChunkIsRejected | src/fixtures/demo-v2-images.ts:23-30 | a chunk with up to four neighbouring data bytes changed is rejected |
| Png.FillRow | src/fixtures/demo-v2-images.ts:72-107 | one scanline is written at the moving offset and nothing outside it |
| Png.FillRaster | src/fixtures/demo-v2-images.ts:69-108 | the offset ends exactly at (3w+1)h and the buffer holds every filter byte and pixel in order |
| Png.FictionalPng | src/fixtures/demo-v2-images.ts:59-121 | the returned bytes are signature, header, compressed scanlines and end chunk of the given image |
| Png.ChunksRoundTrip | src/fixtures/demo-v2-images.ts:110-120 | a decoder recovers exactly the three chunks, every checksum valid and nothing left over |
| Png.DimensionsRoundTrip | src/fixtures/demo-v2-render-fixture.ts:118-123 | reading the dimensions of a generated file gives the width and height it was made with |
| Png.RasterAt | src/fixtures/demo-v2-images.ts:69-108 | byte y(3w+1) of the raster is the filter byte, and the bytes 1+3x, 2+3x and 3+3x after it are the red, green and blue of pixel (x, y) |
| Png.HeaderBytes | src/fixtures/demo-v2-images.ts:110-120 | the fixed bytes of every file: signature, header length and type, and eight-bit truecolour without interlacing |
| PngColour.HslInRange | src/fixtures/demo-v2-images.ts:45-52 | hue in [0, 360) and saturation and lightness in [0, 1] give three channels in 0..255 |
| PngColour.PixelInRange | src/fixtures/demo-v2-images.ts:74-106 | for a non-negative base hue every pixel is in range whatever the light model, so the buffer stores it unchanged |
| PngColour.NegativeHueInRange | src/fixtures/demo-v2-images.ts:45-52 | a negative hue stays within a byte exactly when its green channel does not round below zero |
| PngColour.PixelInRangeIff | src/fixtures/demo-v2-images.ts:74-106 | for every base hue and lightness, exactly which pixels are in range |
| PngColour.ImageInRangeIff | src/fixtures/demo-v2-images.ts:96-102 | exactly which base hues are safe: an image is in range under every light model if and only if each pixel's drawn hue is non-negative or its depth below a multiple of 120 degrees is small enough for the saturation |
| PngColour.NegativeHueEscapes | src/fixtures/demo-v2-images.ts:96 | a concrete negative hue gives a channel below zero, because the remainder keeps its sign |
| PngColourCss.HslIsCss | src/fixtures/demo-v2-images.ts:45-52 | for every hue on the circle the six sectors give the bytes of the sector-free conversion (section 7.1 of CSS Color Module Level 4), red, green and blue each from its own channel |
| PngColourCss.HueDrifts | src/fixtures/demo-v2-images.ts:96 | along a row the hue drifts evenly by 12 degrees in all, and below the horizon it lies 6 further |
| PngColourCss.SaturationFalls | src/fixtures/demo-v2-images.ts:97 | the saturation at the top and the bottom row, with and without the treatment style |
| PngColourCss.PixelTold | src/fixtures/demo-v2-images.ts:96-102 | for a non-negative base hue a pixel is the colour of its hue turned onto the circle, its row's saturation, and the lightness stretched about the anchor and held within 0.14 and 0.9 |
| IpGuard.ParseIpv4 | src/utils/ip-guard.ts:9-20 | the accumulation loop equals the parse specification, rejecting every malformed or oversized part |
| IpGuard.AddressRoundTrip | src/utils/ip-guard.ts:9-20 | parsing undoes dotted-quad printing for every 32-bit address |
| Ipv4Text.ReadIff | src/utils/ip-guard.ts:9-20 | for every text: it is read as an address exactly when it is four numbers of one to three decimal digits, up to 255, with dots between, and as the one they make |
| IpGuard.MaskTestIsDivision | src/utils/ip-guard.ts:22-30 | the mask test holds exactly when both addresses agree after division by 2^(32-bits) (section 3.1 of RFC 4632) |
| IpGuard.BlockedIsReserved | src/utils/ip-guard.ts:32-53 | a printed address is blocked exactly when it lies in the union of the fourteen listed intervals |
| Ipv4Text.VerdictOnAnyText | src/utils/ip-guard.ts:50-53 | for every text: one that is no address is refused, and an address, leading zeros or not, exactly when it lies in a reserved interval |
| IpGuard.HexMappedVerdict | src/utils/ip-guard.ts:60-67 | the hex IPv4-mapped form, in any letter case and with any zone, is judged as the address hi*65536+lo (section 2.5.5.2 of RFC 4291) |
| IpGuard.DottedMappedVerdict | src/utils/ip-guard.ts:56-59 | the dotted IPv4-mapped form is judged as its embedded address |
| IpGuard.DottedCompatibleVerdict | src/utils/ip-guard.ts:56-58 | the IPv4-compatible dotted form is judged as its embedded address too |
| Ipv6Text.LiteralVerdict | src/utils/ip-guard.ts:55-81 | the verdict on every IPv6 literal of groups without leading zeros, in any case, with any zone and any compressed run, in terms of its groups |
| Ipv6Text.CanonicalVerdictIff | src/utils/ip-guard.ts:55-80 | for canonical literals (section 4.2 of RFC 5952) the textual test agrees with the 128-bit ranges it stands for exactly outside a listed set of groups: some first and second groups, and IPv4-compatible addresses of reserved ones |
| Ipv6Text.LinkLocalGap | src/utils/ip-guard.ts:73-75 | a canonical link-local literal, fe81::1, that the textual prefixes do not cover |
| Ipv6Text.CompatibleGap | src/utils/ip-guard.ts:56-58 | one address in two spellings: `::127.0.0.1` is refused and its canonical hex form `::7f00:1` is not |
| Ipv6Text.SpelledOutLoopback | src/utils/ip-guard.ts:72 | loopback with its zeros written out is not recognised |
| Ipv6Text.PaddedDocumentation | src/utils/ip-guard.ts:78 | the documentation prefix with a padded second group is not recognised |
| Ipv6Text.AnyCaseSameVerdict | src/utils/ip-guard.ts:55 | for every text: spellings that differ only in the case of letters get the same verdict |
| Ipv6Text.DenotesInAnyCase | src/utils/ip-guard.ts:55 | every spelling of a lower-case literal, with any capitals and any zone behind it, is judged as that literal |
| Ipv6Dotted.DottedLiteralVerdict | src/utils/ip-guard.ts:55-80 | the verdict on every literal that ends in a dotted quad, after any groups and any compressed run |
| Ipv6Dotted.DottedVerdictIff | src/utils/ip-guard.ts:55-80 | for all of them, canonical or not, the verdict is what the 128-bit ranges ask for exactly outside the discrepant first groups and the embedded reserved addresses whose leading zeros are not all compressed |
| Ipv6Dotted.SpelledOutMappedLoopback | src/utils/ip-guard.ts:57 | mapped loopback with its zeros written out, `0:0:0:0:0:ffff:127.0.0.1`, is not recognised |
| NetworkErrors.CollectNestedErrors | src/utils/network-error-classification.ts:51-65 | the queue loop terminates on any cyclic graph and equals the walk specification |
| NetworkErrors.NestedErrorsSound | src/utils/network-error-classification.ts:51-65 | the walk returns distinct reachable nodes, at most 32, and misses one only at the limit |
| NetworkErrors.NestedErrorsComplete | src/utils/network-error-classification.ts:55 | the walk returns the whole reachable set exactly when that set has at most 32 nodes |
| NetworkErrors.StagePrecedence | src/utils/network-error-classification.ts:71-93 | the stage is decided by which codes occur anywhere, in a fixed precedence; only TLS is final; the code reported occurred |
| NetworkErrorCodes.CodeDecides | src/utils/network-error-classification.ts:24-43 | for every list of codes, one decides: the first of the earliest kind present, each kind named with its codes; it is the code reported and its kind gives stage and retryable |
| NetworkErrorCodes.CodeCounts | src/utils/network-error-classification.ts:45-49 | exactly which codes count: 2 to 80 upper-case letters, digits and underscores after normalising |
| NetworkErrorCodes.FoundInOrder | src/utils/network-error-classification.ts:51-65 | for every graph, cyclic or not, the nodes found are the distinct objects met when each node found offers its cause and then its errors, until these run out or 32 are found |
| NetworkErrors.WrappedVerdict | src/utils/network-error-classification.ts:51-93 | for every graph the verdict on a wrapped error is that of the first 31 nodes found, with the wrapper's code when they have none |
| NetworkErrors.WrappingKeepsClassification | src/utils/network-error-classification.ts:71-93 | wrapping a graph of fewer than 32 nodes keeps stage and retryable, and keeps the code exactly when the graph holds any |
| NetworkErrorWrapping.StageSurvivesIff | src/utils/network-error-classification.ts:80-92 | for every graph, stage and retryability survive wrapping exactly when fewer than 32 nodes are found or the last one's code is tested for no earlier than those before it |
| NetworkErrorWrapping.ShapeSurvivesIff | src/utils/network-error-classification.ts:55 | for a given shape of graph they survive under every assignment of codes if and only if fewer than 32 nodes are found |
| NetworkErrors.WrappingCanLoseTheThirtySecondNode | src/utils/network-error-classification.ts:55 | with 32 nodes the wrapper pushes the last one, and its code, out of the verdict |
| SafeFetch.InspectUrlSafe | src/utils/safe-fetch.ts:105-127 | the approval loop accepts a URL exactly when scheme, credentials and every resolved address pass |
| SafeFetch.LookupOffersOnlyApproved | src/utils/safe-fetch.ts:69-94 | the connect-time lookup hands over the resolved list or its head unaltered, and refuses exactly empty lists and lists with a blocked address, given no empty string among them; the address family offered is the one written in the address |
| SafeFetch.ReadBody | src/utils/safe-fetch.ts:276-290 | the body is the concatenation of the chunks when it fits the cap, a policy error when it does not |
| SafeFetch.Fetch | src/utils/safe-fetch.ts:242-300 | one hop: literal hosts are dialled as they stand, names only through the lookup, errors wrapped unless they are policy errors |
| SafeFetch.SafeGetHtml | src/utils/safe-fetch.ts:143-232 | the redirect loop gives the outcome and the event log of the call specification |
| SafeFetch.CallIsLawful | src/utils/safe-fetch.ts:170-194 | every fetch is on a URL approved in the same iteration, and dials the literal in it or the whole list the connect-time lookup resolved |
| SafeFetch.CallIsSafeIff | src/utils/safe-fetch.ts:69-94 | for every call, nothing the guard refuses is dialled if and only if in no list resolved at connect time an empty string is the first address refused |
| SafeFetch.FetchBudget | src/utils/safe-fetch.ts:170-231 | at most maxRedirects+1 fetches, and redirectCount equals the redirects followed, except that it is maxRedirects+1 with nothing fetched when that is negative |
| SafeFetch.CallIsJudged | src/utils/safe-fetch.ts:170-231 | the outcome of the whole call follows the last status answered, wherever in the redirect chain; a call that ends without an answer yields no page, invalid outcome or status; stage and error code follow that status too |
| SafeFetchTrail.CallTrail | src/utils/safe-fetch.ts:105-300 | for every call: the first URL approved is the text given, each later one is where the redirect of the one before pointed, all are acceptable, and redirects are followed as far as that and the limit allow; a page is the whole body of the last, its final URL and status; what refuses or fails decides how the call ends |
| SafeFetch.TooManyIsTransient | src/utils/safe-fetch.ts:230-231 | past the redirect limit the call ends as a transient, non-retryable redirect failure, whatever came before |
| SafeFetch.DiagnosticIsStorable | src/persistence/schema.ts:499-505 | kind and classification correspond one to one, and the diagnostic satisfies the table's constraints exactly when every status received lies in 100..599 and maxRedirects is at least -1 |
| SafeFetch.PageIsCapped | src/utils/safe-fetch.ts:276-286 | a page is returned only within the byte cap, and never for a 3xx, 4xx or 5xx status |
| HttpRetry.PostJson | src/utils/http.ts:29-67 | the retry loop stops on the specified attempt with the specified verdict after exactly the specified requests and sleeps |
| HttpRetry.FinalAttemptIsFirstEnd | src/utils/http.ts:37-61 | the loop stops on the first success or fatal status, else on attempt maxRetries |
| HttpRetry.ScheduleCost | src/utils/http.ts:50-60 | stopping on attempt k costs k+1 requests and k sleeps, backoff*(2^k-1) ms in all, and ends on a request |
| HttpRetry.ExhaustedIffAllRetriable | src/utils/http.ts:57-66 | the run ends in HTTP_REQUEST_FAILED exactly when every reply up to the budget is retriable |
| HttpRetry.NextRequestIff | src/utils/http.ts:20-66 | another request is made exactly when the budget allows it and every reply so far is an error, a 429 or a status from 500 up; and what the caller gets for each kind of last reply |
| HttpRetry.ScheduleAt | src/utils/http.ts:37-60 | each request and each sleep stands at its own place, the sleep after request i being backoff*2^i |
| HttpRetry.PatienceKeepsAnswers | src/utils/http.ts:37-61 | a larger budget never changes a run that ended on an answer |
| CanonicalJson.AscendingUnique | src/utils/hash.ts:16 | a strictly ascending field list is determined by its elements |
| CanonicalJson.LessMeans | src/utils/hash.ts:16 | key order is decided at the first differing code unit, a proper prefix first |
| CanonicalJson.FromEntriesSpec | src/utils/hash.ts:17 | rebuilding the object keeps every field once, whatever order the engine enumerates integer keys in |
| CanonicalJson.SortValueDecides | src/utils/hash.ts:11-20 | two trees have equal canonical forms exactly when they are equal up to key order and undefined fields at every depth |
| CanonicalJson.SortValueKeepsMeaning | src/utils/hash.ts:11-20 | the canonical form means the same as the tree it came from |
| CanonicalJson.SortValueIdempotent | src/utils/hash.ts:11-20 | canonicalising twice changes nothing |
| PercentCoding.Utf8IsExact | src/dashboard/security.ts:64-65 | decoding accepts exactly the UTF-8 encodings: no overlong form, surrogate or oversized value |
| FormBody.CsrfMatches | src/dashboard/security.ts:51-56 | the accumulating comparison holds exactly when a non-empty token was sent and is the expected one |
| FormBody.ParseFormBody | src/dashboard/security.ts:59-69 | the pair loop equals the fill specification, and any malformed escape makes the whole body fail |
| FormBody.DecodeEncode | src/dashboard/security.ts:64-65 | decoding after the plus replacement undoes the form encoder on every string |
| FormBody.ParseSerialized | src/dashboard/security.ts:59-69 | parsing the serialization (section 5 of the WHATWG URL Standard) of any pairs gives their map, less the name `__proto__` |
| FormBody.RoundTripIff | src/dashboard/security.ts:66 | the whole map comes back exactly when no name is `__proto__` |
| FormFields.UnescapesIff | src/dashboard/security.ts:64-65 | for every text, whoever wrote it: it unescapes, and to what, exactly when it can be cut into characters standing for themselves, pluses for spaces, and UTF-8 octets escaped in either case |
| FormFields.PieceTold | src/dashboard/security.ts:63-65 | every piece is cut at its first equals sign, and has an empty value without one |
| FormFields.BodyTold | src/dashboard/security.ts:59-69 | for every body: it fails exactly when a non-empty piece cannot be read, and otherwise holds for each name but `__proto__` the value of the last piece that names it, and nothing else |
| Rerank.SortIsTheStableSort | src/cli/commands/decision-makers-rerank.ts:75 | the sort is the one and only stable sort by tier, then confidence downwards with missing as -1 |
| Rerank.Tier | src/cli/commands/decision-makers-rerank.ts:59-65 | each entry lands in exactly one of the two lists, in file order |
| Rerank.Disk.Rerank | src/cli/commands/decision-makers-rerank.ts:29-99 | the command's loops report and write what the run specification says |
| Rerank.RerankedLeadIsOrdered | src/cli/commands/decision-makers-rerank.ts:73-86 | a re-ranked lead has the same entries unaltered, in order, and is unchanged by a second re-ranking and exactly when it was in order |
| RerankOrder.RerankedIsArranged | src/cli/commands/decision-makers-rerank.ts:73-86 | in the output lower tiers come first, higher confidence first within a tier, a missing one counting as -1, and entries alike in both keep their order |
| RerankOrder.CommandTold | src/cli/commands/decision-makers-rerank.ts:29-99 | the whole command in plain terms: each refusal with its cause, the dry run, when a confirmed run writes, and what every lead then holds |
| Rerank.NamesMoveIffOutOfOrder | src/cli/commands/decision-makers-rerank.ts:76-79 | with distinct names the reordered flag is set exactly for leads out of order |
| Rerank.RefusedIffUnmapped | src/cli/commands/decision-makers-rerank.ts:31-71 | refusal happens exactly for a missing file, a bad lead argument or an unmapped examined entry, and writes nothing |
| Rerank.ConfirmedRun | src/cli/commands/decision-makers-rerank.ts:44-98 | untargeted leads and all entries are kept, and afterwards every targeted lead is in order exactly when the run wrote or they already were |
| Rerank.SecondRunChangesNothing | src/cli/commands/decision-makers-rerank.ts:89-97 | a second confirmed run finds nothing to change |
| Rerank.DistinctNamesWriteIffOutOfOrder | src/cli/commands/decision-makers-rerank.ts:78-97 | with distinct names per lead the file is written exactly when some targeted lead is out of order |
| Rerank.SameNameStaysOutOfOrder | src/cli/commands/decision-makers-rerank.ts:76-79 | a concrete file with two entries of one name that stays out of order because no name moves |

## Left out

- Deduplication, lead construction, qualification, enrichment, extraction and title classification are abstract functions of what they read; only their visible contracts are used.
- LeadCollectionRuns.RunsCompose: compares leads, entities and facts, because observations and events are append-only history and timestamps are not modelled.
- ProspectProcessor.AtMostOneRequestPerPlace: a transaction is a read step and a commit step in which the unique index decides; database isolation beyond that index is not modelled. Entities are never removed: the schema deletes them with their lead, but outside the test-data reset (src/persistence/maintenance.ts) nothing in the application deletes leads.
- Discovery.Workspace.Discover: plan and preview modes, the --lead selection, costs and notes in the record are not modelled; one writer at a time is assumed.
- DiscoverySafety.UnrecordedPayments: each crash or thrown error ends a run, and leads in one scope have distinct ids.
- AtomicFile.File.Write: creating the directory is not modelled, and rename is atomic as the file system promises.
- ContactCascade.BudgetIsKept: covers counted spend; what an erroring provider call used is not reported to the code and cannot be counted.
- ContactCascade.FallbackReplacesNothing: assumes fallback leads are not selected, as the command's selection arranges.
- GooglePlaceFacts.FactStore.WriteCurrentFact: the times a row was captured and superseded are not modelled.
- GooglePlaceFacts.HistoryKeepsPrecedence: transactions run one after the other; overlapping ones are the subject of GooglePlaceFactRaces.
- GooglePlaceFactRaces.DisplacesIff: each fact's write becomes visible on its own, where the database shows all writes of one transaction together; isolation is read committed, the database's default.
- FactWriteStatements.InsertFailsIff: a transaction writes a lead and type at most once, as GoogleKinds and BackfillKinds show of the two Google writers; the database's choice of whom to abort in a deadlock is a step that can happen at any time.
- Ipv6Text.LiteralVerdict: groups are written without leading zeros; PaddedDocumentation shows a padded group that changes the verdict.
- GooglePlaceFacts.FactStore.Persist: source URL, normalised value, confidence and capture time of a fact are not modelled; numbers arrive as text; a row's id is its position.
- Png.FictionalPng: compression and the seed hash are parameters; the pixel function is arbitrary.
- PngColour.PixelInRange: arithmetic is over the reals and the light model is an arbitrary function, so floating-point rounding is not covered.
- IpGuard.HexMappedVerdict: which literals are IPv6 at all is decided by `net.isIP`, a parameter here.
- NetworkErrors.WrappingKeepsClassification: the wrapper is outside the wrapped graph, as a newly made error is; trimming and upper-casing of codes are a parameter.
- SafeFetch.SafeGetHtml: URL parsing, `net.isIP`, DNS, sockets, deadlines and elapsed time are parameters or left out; a body is bytes, and its decoding to text is not modelled.
- HttpRetry.PostJson: the per-attempt timeout is one of the replies; request and response bodies are opaque.
- CanonicalJson.SortValueDecides: plain data trees only; dates, functions and the text of JSON.stringify and its hash are not modelled.
- FormBody.ParseSerialized: strings are sequences of Unicode scalar values, so lone surrogates are not covered.
- Rerank.Disk.Rerank: console output and reading or validating the file's text are not modelled, and lead names inherited from the object prototype are not keys.
- The rate limiter, geographic distance, dashboard pages and server, CLI wiring, environment parsing, the remaining commands and the mock responders would only add easy members.
