# A model of the assistant's stateful core

This project models the parts of the assistant whose behaviour depends on state, on recursion over
text, or on the order in which things happen, and proves what they promise for every input and every
run. Check it with `dafny verify dfyconfig.toml`.

| part of the assistant | modules |
|---|---|
| reading a vision response that was cut short | `JsonText`, `JsonParser`, `Scanner`, `Truncation`, `Decode`, `DecodeLaws`, `NumeralLaws`, `ObservationFields`, `CutReadings` |
| from observations to slots | `Resolve`, `ResolveLaws`, `Conclusions`, `ResolveOrder`, `CutSlots` |
| the leased job queue | `JobQueue`, `JobRuns` |
| the answer cache and its key | `AnswerCache`, `CacheRuns`, `CacheKey` |
| the chunker | `Chunker`, `ChunkerLaws`, `ChunkerShapes` |
| citations and published figures | `Citations`, `Figures` |
| the version ledger, the delta build, the embedding cache | `Ledger`, `DeltaBuild`, `DeltaLaws`, `EmbeddingCache` |
| routing and splitting a message | `Router`, `Topics` |
| shared by these | `Wrappers`, `Blanks`, `Decimals`, `Ordering` |

How the pieces fit together:

* JSON is a concrete syntax tree that keeps blanks, escapes and the spelling of numbers, so printing
  covers every text of RFC 8259 (sections 2 to 7) and, as Python's parser does, the words `NaN`,
  `Infinity` and `-Infinity`. The parser reads a text as a tree exactly when the text is that tree
  printed. A response is any such object whose first field is a list named `observations`, the name
  written without escapes, which is how a grammar that follows the schema writes it; the cut may fall
  at any character.
* A source class becomes a class whose methods are proved equal to a function of the old state, a
  source loop becomes a loop proved equal to a function of its input, and the laws are proved about
  those functions.
* Whole runs are sequences of events. A worker that crashes is a claim that no later event refers to.
* Tables of patterns and the outside world (the embedder, digests, the extractor, case tables, what a
  regular expression of the vocabulary matches) are function parameters, so each law holds for all of them.

Where the code does less than its documentation says, the model follows the code, and a lemma says
exactly when the promise holds or gives a case where it does not:

* A cut can read more than the whole response, exactly when the readings of the first list named
  `observations` do not begin those of the last one (`CutReadings.CutsShortenExactly`): because the
  field is given twice (`CutReadings.RepeatedFieldBreaks`), or because the whole does not meet the
  observation contract (`CutReadings.CutsShortenUnrepeated`).
* A truncated response fills no slot, yet it can open the gate on the substrate
  (`CutSlots.CutOpensTheGate`); it changes slots exactly if it changes the gate in front of a substrate
  that could be filled (`CutSlots.PowerlessMovesOnlyTheGate`).
* A tie in confidence lets the first image decide (`ResolveLaws.TiesDecide`); the slots are independent of
  the order exactly if there is no such substrate, or no two images put in front change the gate
  (`ResolveOrder.SlotsIgnoreOrderExactly`), which can be read off what the leading images say of the
  finish and the masonry (`ResolveOrder.SlotsFollowLeaders`).
* A published figure with a unit is refused where, without spaces, a digit or a decimal point comes to
  stand behind the unit (`Figures.PressedUnit`); `Figures.FigureExactly` says when a figure is accepted.
* An exception without text is recorded as success (`JobQueue.WorkRecordsFailure`).
* A text without bullets, over the ceiling and with a blank line is cut although it counts as one
  piece (`ChunkerLaws.PiecesKeptExactly`).
* Collisions of source identities are rejected for staff sources only; a fixture that clashes with a
  crawled page makes a delta differ from a rebuild (`DeltaLaws.DeltaIsRebuild`), and each further delta
  serves the other of the two (`DeltaLaws.SecondDeltaIdle`, `DeltaLaws.DoubledFlips`).
* The relevance gate joins all passages before it looks, so a term of several words may be found
  across two of them (`Router.GateReadsPassages`).

## Model

| member | source | states |
|---|---|---|
| `JsonParser.LoadsExact` | assistant/answering/vision.py:959-960 | the JSON reader that `_decode` relies on accepts a text as a tree if and only if the text is that tree printed with blanks around it |
| `JsonParser.LoadsPrinted` | assistant/answering/vision.py:940-942 | every well-formed tree, printed in any layout, is read back as itself |
| `Scanner.ScanEnds` | assistant/answering/vision.py:909-936 | the scanning loop records exactly the ends that the step-by-step state machine over depth, string and escape records, its early exit included |
| `Scanner.SalvageText` | assistant/answering/vision.py:884-952 | `salvage` as written computes the function that the laws below are about |
| `Truncation.SalvageExact` | assistant/answering/vision.py:884-952 | for every response and every cut point: nothing before the list, and inside it exactly the values up to the last observation object completed before the cut, unchanged and in order |
| `Truncation.CutObjectDiffers` | assistant/answering/vision.py:959-961 | no beginning of an object that stops before its closing brace is a printed JSON value |
| `Truncation.CutObjectFails` | assistant/answering/vision.py:959-961 | so such a beginning is never parsed and always goes through `salvage` |
| `Truncation.CompletedByUnique` | assistant/answering/vision.py:899-902 | what counts as completed before a cut is determined by the cut |
| `Decode.DecodeText` | assistant/answering/vision.py:955-999 | `_decode` as written, with its five ways to fail, computes the function that the laws are about |
| `Decode.ReadLoop` | assistant/answering/vision.py:1001-1032 | the loop over observations with its set of readings taken: cap, refusal filter and first-wins duplicate removal |
| `DecodeLaws.ReadingsAreFirsts` | assistant/answering/vision.py:1004-1021 | an observation is reported if and only if some item reads as it and no earlier item has the same attribute and value |
| `DecodeLaws.ReadingsDistinct` | assistant/answering/vision.py:1012-1020 | no two reported readings share attribute and value, case aside |
| `DecodeLaws.RefusedExactly` | assistant/answering/vision.py:1005-1014 | the refused names are exactly the forbidden attributes that some item carries |
| `DecodeLaws.FirstSixRead` | assistant/answering/vision.py:1004 | an observation is read exactly if it is the first of its kind among the first six items |
| `DecodeLaws.ReadingsWellFormed` | assistant/answering/vision.py:787-881 | every reading names an offered attribute, has a value, a confidence from 0 to 1 and, if any, a region that is a box inside the image |
| `DecodeLaws.HighNumbers` | assistant/answering/vision.py:845-853 | a number lands in the top band if and only if it is from 0.8 to 1, or whole and from 80 to 100 |
| `DecodeLaws.OtherNumbers` | assistant/answering/vision.py:845-853 | when it lands in the middle band, and when it is not read at all |
| `NumeralLaws.WholePart` | assistant/answering/vision.py:845 | without sign and exponent a numeral is its whole part and less than one more, and just that if all digits behind the point are zeros |
| `NumeralLaws.NextDigit` | assistant/answering/vision.py:845 | one more digit behind the point adds so many of the next smaller decimal unit |
| `NumeralLaws.MinusNegates` | assistant/answering/vision.py:845 | a minus negates |
| `NumeralLaws.ExponentMoves` | assistant/answering/vision.py:845 | an exponent multiplies by a power of ten, or divides with a minus |
| `NumeralLaws.HighSpelled` | assistant/answering/vision.py:845-853 | as spelled: top band if and only if `0.8...`, `0.9...`, one, or a whole number from 80 to 100, zeros behind the point aside |
| `ObservationFields.EscapesRead` | assistant/answering/vision.py:959-960 | a text escaped throughout, with digits in either case and surrogate pairs beyond the first plane, is read back as itself if and only if it holds no surrogate pair of its own |
| `ObservationFields.ShortEscapes` | assistant/answering/vision.py:959-960 | what the short escapes stand for |
| `ObservationFields.CornersRead` | assistant/answering/vision.py:787-803 | four numbers are a region, left, top, right, bottom, if and only if they are a box inside the image |
| `ObservationFields.ObservationRead` | assistant/answering/vision.py:856-881 | every part of an observation comes from the field of its name |
| `ObservationFields.BareRead` | assistant/answering/vision.py:867-881 | fields that an item leaves out are empty, and the region is none |
| `ObservationFields.ObjectsKept` | assistant/answering/vision.py:867-881 | the interpretations kept are exactly the objects among them |
| `ObservationFields.CannotExactly` | assistant/answering/vision.py:1024-1026 | what cannot be determined is exactly the texts of that list |
| `ObservationFields.OtherValuesFail` | assistant/answering/vision.py:971-973 | a JSON text that is no object fails as such |
| `DecodeLaws.BandNamesRead` | assistant/answering/vision.py:300-321 | a named band is carried as a floor that is read back as that band, and no other text is read at all |
| `CutReadings.PerceivedPrefix` | assistant/answering/vision.py:1001-1032 | fewer raw observations give a prefix of the readings and of the refusals, through cap, filter and duplicate removal |
| `CutReadings.WholeReads` | assistant/answering/vision.py:955-960 | a cut behind the object's closing brace is read as the whole response |
| `CutReadings.TreeReads` | assistant/answering/vision.py:971-999 | a complete response gives the readings of the last list of that name, which the parser keeps, or fails the contract, nothing else |
| `CutReadings.CutReads` | assistant/answering/vision.py:959-970 | a cut inside the object gives one of two failures or the readings of the completed observations, marked truncated |
| `CutReadings.CutsOnlyShorten` | assistant/answering/vision.py:955-1032 | for every response and every cut, if the readings of the first list begin those of the last, as they do for every response that meets the contract and gives the field once, the readings are a prefix of the whole's, and a result that does not own up to the cut is the whole result |
| `CutReadings.CutsShortenExactly` | assistant/answering/vision.py:884-1032 | for every response: that holds at every cut if and only if the readings of the first list named `observations` begin those of the last, which count for nothing unless both required fields are lists |
| `CutReadings.CutsShortenUnrepeated` | assistant/answering/vision.py:980-999 | where the field is given once, it holds if and only if the whole response meets the contract or its list has nothing readable |
| `CutReadings.CutReadsBeginning` | assistant/answering/vision.py:955-1032 | every cut reads a beginning of the first list and owns up to it, or reads what the whole does |
| `CutReadings.RepeatedFieldBreaks` | assistant/answering/vision.py:903-908 | a response with the field twice for which a cut reads more than the whole |
| `CutReadings.RepeatedFieldHappens` | assistant/answering/vision.py:903-908 | one such response, a wall read as brick, wherever substrate is an attribute on offer |
| `Resolve.MatchValue` | assistant/answering/vision.py:1189-1223 | a string means a value if and only if it matches that vocabulary value and no other |
| `Resolve.Note` | assistant/answering/vision.py:1307-1332 | one observation is added to what was seen of its attribute alone, and to what was accepted if it may be acted on |
| `Resolve.Gather` | assistant/answering/vision.py:1295-1332 | the two dictionaries after the loops hold, per attribute, all matching readings in order and the acceptable ones among them |
| `ResolveLaws.SettleConcludes` | assistant/answering/vision.py:1334-1380 | no conclusion exactly without a reading, a conflict exactly if two accepted readings disagree, a confirmed value exactly if they agree on it, else the value of a most confident reading, unsettled exactly if all are below the middle band and withheld exactly in the top band |
| `Resolve.ResolveAll` | assistant/answering/vision.py:1261-1415 | `resolve` as written, gate and declined attributes included, computes the function that the laws are about |
| `Conclusions.ConclusionIs` | assistant/answering/vision.py:1381-1403 | an attribute has a conclusion exactly if it is known and was read; it is unsettled and declined if it may not be acted on and the model declined it, else what its readings settle, covered if it is the substrate behind the gate; value and confidence are always those of the readings |
| `Conclusions.CertaintyIs` | assistant/answering/vision.py:469-491 | the certainty of every conclusion, from what was read, agreed on, declined and disputed |
| `Conclusions.ConfidenceOf` | assistant/answering/vision.py:1341-1380 | the confidence is the highest of the accepted readings, or of all if none was accepted |
| `Conclusions.DeclinedIsHonoured` | assistant/answering/vision.py:1389-1403 | what is declined and may not be acted on is reported as such, whatever was read of it |
| `ResolveLaws.SlotFilledWhen` | assistant/answering/vision.py:1334-1406 | a slot is filled with a value if and only if the accepted readings of it all have that value, there is one, and the gate does not hold it back |
| `ResolveLaws.SlotsAreBacked` | assistant/answering/vision.py:1268-1283 | a filled slot is backed by a HIGH, region-carrying, untruncated observation that means exactly that value, and all such observations agree |
| `ResolveLaws.SlotsIgnoreOrder` | assistant/answering/vision.py:1301-1406 | the slots depend neither on the order of the images nor on repetitions, if the two attributes read by the gate have no disagreeing tie at the top |
| `ResolveLaws.TiesDecide` | assistant/answering/vision.py:1341-1342 | an example: with two tied likely readings of the finish, one bare and one covering, the first image alone decides whether the substrate is filled |
| `ResolveLaws.SlotsDifferByGate` | assistant/answering/vision.py:1381-1406 | where the accepted values are the same, the slots are the same if and only if the gate is or has no substrate to hold back |
| `ResolveOrder.FirstLeader` | assistant/answering/vision.py:1341-1342 | the reading that a conclusion rests on is the one of the first image that holds a most confident reading |
| `ResolveOrder.OrderIsPair` | assistant/answering/vision.py:1301-1383 | what the gate says in any order of the images, it says with some two of them put in front |
| `ResolveOrder.SlotsIgnoreOrderExactly` | assistant/answering/vision.py:1261-1415 | the slots are the same in every order if and only if no substrate could be filled or no two images, put in front, change the gate |
| `ResolveOrder.SlotsFollowLeaders` | assistant/answering/vision.py:1226-1258 | the same condition on the readings: whichever two images come first, what the leading ones say of the finish and the masonry gives the verdict given now |
| `CutSlots.CutIsPowerless` | assistant/answering/vision.py:959-970 | a response cut inside its object is truncated or empty, whatever the cut |
| `CutSlots.PowerlessFillsNothing` | assistant/answering/vision.py:441-444 | responses of that kind alone fill no slot |
| `CutSlots.PowerlessMovesOnlyTheGate` | assistant/answering/vision.py:1319-1332 | one more of them changes no slot but the substrate, and leaves the slots as they are if and only if the gate stays as it is or no substrate could be filled |
| `CutSlots.CutOpensTheGate` | assistant/answering/vision.py:1226-1258 | a case where a truncated reading lets the substrate through |
| `JobQueue.FirstUnique` | assistant/indexing/pipeline.py:152-154 | the order by due time and id leaves no choice |
| `JobQueue.Queue.Enqueue` | assistant/indexing/pipeline.py:103-107 | the table after an insert that an existing id makes void |
| `JobRuns.FirstEnqueueCounts` | assistant/indexing/pipeline.py:103-107 | in every run a job is known exactly if it was enqueued, and its row and every job handed out for it carry what the first enqueueing asked for |
| `JobRuns.AgainIsIgnored` | assistant/indexing/pipeline.py:105 | enqueueing a known job again changes nothing |
| `JobRuns.NewJobIsDue` | assistant/indexing/pipeline.py:103-107 | a new job may be handed out from the moment it was enqueued and no earlier, stays so until a claim takes it, and a claim at such a time succeeds unless a lease is running |
| `JobRuns.EnqueuedRunsAtOnce` | assistant/indexing/pipeline.py:262-274 | enqueued into an empty queue and claimed at once, the job runs |
| `JobQueue.Queue.Claim` | assistant/indexing/pipeline.py:109-165 | the table and the job handed out: sweep, selection and lease in one step |
| `JobQueue.Queue.Finish` | assistant/indexing/pipeline.py:167-191 | the table after an outcome, and whether the lease was still this attempt's |
| `JobQueue.Queue.Work` | assistant/indexing/pipeline.py:197-234 | at most one job is claimed and, whatever others do to the queue until then, finished with what its body reported; the exit code, and none where a lost lease raises |
| `JobQueue.WorkRecordsFailure` | assistant/indexing/pipeline.py:229-232 | while the lease is held an exception is recorded as a failure if and only if its text is not empty; once it is lost nothing is recorded |
| `JobQueue.WorkLeaves` | assistant/indexing/pipeline.py:226-234 | a success leaves the snapshot and no text, a failure the text and no snapshot, waiting or after the third attempt dead; the lease is given up and no other row touched |
| `JobQueue.ClaimedIsHeld` | assistant/indexing/pipeline.py:158-162 | a job just claimed is held, so that is the case unless others took it meanwhile |
| `JobRuns.RunKeepsInv` | assistant/indexing/pipeline.py:103-191 | every run keeps: attempts count the claims of that job, and a running row's token belongs to its newest claim |
| `JobRuns.AttemptsBounded` | assistant/indexing/pipeline.py:147-191 | pending means at most 2 attempts, running and done 1 to 3, dead 3, in every run |
| `JobRuns.TerminalStays` | assistant/indexing/pipeline.py:150-154 | done and dead rows never change again |
| `JobRuns.EffectiveFalls` | assistant/indexing/pipeline.py:147-191 | every successful claim, finish or sweep strictly lowers the work that is left |
| `JobRuns.StepsBounded` | assistant/indexing/pipeline.py:147-191 | so n jobs allow at most 6n effective steps |
| `JobRuns.ClaimsBounded` | assistant/indexing/pipeline.py:158-161 | the claims of a run are exactly the attempts recorded, at most 3n |
| `JobRuns.OneLease` | assistant/indexing/pipeline.py:122-128 | at any time no claim is later than, at most one job holds an unexpired lease |
| `JobRuns.ClaimFailsWhen` | assistant/indexing/pipeline.py:152-157 | a claim returns nothing if and only if a lease is running or no row is due with an attempt to spare |
| `JobRuns.ClaimTakesLeast` | assistant/indexing/pipeline.py:147-162 | a claim takes the least such row by due time and id, leases it under the new token, and only buries abandoned rows besides |
| `JobRuns.OutcomeWritten` | assistant/indexing/pipeline.py:184-191 | every outcome was written at some step by the newest attempt or by the burial of that attempt, and stands as written |
| `JobRuns.SupersededIsPowerless` | assistant/indexing/pipeline.py:176-182 | once its row is claimed again, an attempt's finish fails and changes nothing |
| `JobRuns.OnlyNewestFinishes` | assistant/indexing/pipeline.py:176-191 | a finish that changes the table comes from the newest attempt |
| `JobRuns.PendingWaits` | assistant/indexing/pipeline.py:152-154 | a pending row stays as it is until a claim at or after its due time takes it |
| `JobRuns.BackoffRespected` | assistant/indexing/pipeline.py:167-191 | a job that fails on attempt a of at most two is not claimed before failure time + 60 * 2^(a-1) |
| `AnswerCache.Cache.Get` | assistant/cache.py:117-124 | a hit moves the entry to the young end and returns it, a miss inserts nothing; the counters |
| `AnswerCache.Cache.Put` | assistant/cache.py:126-131 | the entries after a put; the eviction loop turns at most once |
| `AnswerCache.Cache.Clear` | assistant/cache.py:133-136 | nothing is left and the counters are zero |
| `CacheRuns.InclusionAlways` | assistant/cache.py:117-136 | for the same operations on two capacities the smaller cache stays a subsequence of the larger, with equal values and no more hits |
| `CacheRuns.HitsIncluded` | assistant/cache.py:117-124 | a hit in the smaller cache is a hit in the larger with the same answer |
| `CacheRuns.RunIsIdeal` | assistant/cache.py:126-131 | the bounded run is the young end of the run that never evicts |
| `CacheRuns.CacheIsTrace` | assistant/cache.py:117-136 | the cache answers for exactly the keys touched within the last `max_entries` distinct keys since the last clear, with the latest value put |
| `CacheRuns.CountersCountGets` | assistant/cache.py:117-136 | hits and misses count the gets since the last clear; hits those of resident keys |
| `CacheKey.NormaliseIsWords` | assistant/cache.py:40-47 | a normalised question is its lowered words with one blank between each two |
| `CacheKey.SameQuestion` | assistant/cache.py:40-47 | two questions are folded together if and only if their lowered words are the same |
| `CacheKey.SameEntryExactly` | assistant/cache.py:60-115 | two requests share an entry if and only if they agree on words, audiences as a multiset, snapshot, model, chunking, slots, origins and the digest of the history |
| `Chunker.SplitText` | assistant/indexing/index.py:81-92 | the bullet loop computes the slices between marks |
| `Chunker.EmitSection` | assistant/indexing/index.py:143-165 | what one section's text becomes, branch by branch |
| `Chunker.PackParts` | assistant/indexing/index.py:158-164 | the buffer loop computes the packing that the laws are about |
| `Chunker.ChunkSections` | assistant/indexing/index.py:118-172 | the loop over sections with its carry computes the function that the laws are about |
| `ChunkerShapes.PassageHeading` | assistant/indexing/index.py:129-141 | every passage is headed as the sections joined into it are, by its own section's name if nothing was carried into it; their texts are joined line by line |
| `ChunkerShapes.ShortSectionsOnly` | assistant/indexing/index.py:166-171 | if no text was long enough, the sections since the last fresh start make the one passage, under their merged heading |
| `ChunkerShapes.SingleSection` | assistant/indexing/index.py:129-147 | a section of the usual length is one passage under its own name, or an introduction if it has none |
| `ChunkerShapes.MergeMerges` | assistant/indexing/index.py:103-115 | a merged heading is both names while they fit, else a beginning of the first, all of it if it fits, and an ellipsis |
| `ChunkerShapes.SlicesBetween` | assistant/indexing/index.py:84-91 | a text falls into what stands between its marks |
| `ChunkerShapes.BlocksWoven` | assistant/indexing/index.py:156 | blank lines are where it is cut: no block holds one, and with them in between the blocks are the text again |
| `ChunkerShapes.EmitPacked` | assistant/indexing/index.py:149-164 | a text that is too long is packed from its pieces in order, one a line, as many into a passage as the target allows |
| `ChunkerLaws.ChunksConserveText` | assistant/indexing/index.py:118-172 | the passages in order hold exactly the non-blank characters of the sections in order |
| `ChunkerLaws.EmitBounded` | assistant/indexing/index.py:143-164 | a passage of a split text has at most max(TARGET_CHARS + 1, longest piece) characters |
| `ChunkerLaws.BoundReached` | assistant/indexing/index.py:158-162 | the bound is attained: two bullets of half the target fill a passage to TARGET_CHARS + 1 characters |
| `ChunkerLaws.ChunksBounded` | assistant/indexing/index.py:71-73 | every passage is one of those its own section was cut into and keeps to that section's limit; only the last may be longer, by at most MIN_CHARS |
| `ChunkerLaws.BlankLinesCut` | assistant/indexing/index.py:151-156 | a text over the ceiling without bullets is cut at its blank lines, so that no passage holds it |
| `ChunkerLaws.ParagraphsCut` | assistant/indexing/index.py:151-156 | one such text: two long paragraphs without a bullet |
| `ChunkerLaws.PiecesKeptExactly` | assistant/indexing/index.py:81-92 | every piece stands uncut in one passage if and only if the text is not of that kind |
| `ChunkerLaws.ChunksKeepPieces` | assistant/indexing/index.py:118-172 | the same through the whole run: no bullet of a chunked text is ever cut |
| `ChunkerLaws.MergedHeading` | assistant/indexing/index.py:95-115 | a merged heading is at most MAX_HEADING + 2 long and is both names or a beginning of the first cut between words, unless its first 70 characters are one word |
| `Citations.ScanRewrite` | assistant/answering/answer.py:2361 | scanning a rewritten text finds the same tokens with the new numbers and no others |
| `Citations.CountsMeanInRange` | assistant/answering/answer.py:2356-2358 | comparing the two counts tells whether every marker is in range |
| `Citations.FinishedWhen` | assistant/answering/answer.py:2356-2363 | renumbering happens if and only if there is a marker and all are in range; otherwise nothing changes |
| `Citations.CitationsKeepMeaning` | assistant/answering/answer.py:2356-2363 | as many markers as before, the i-th naming in the filtered list the passage that it named originally |
| `Citations.EverySourceCited` | assistant/answering/answer.py:2359-2361 | the new markers are exactly 1 to the length of the list |
| `Citations.FinishingTwice` | assistant/answering/answer.py:2356-2363 | a second pass changes neither text nor list |
| `Citations.SourceRows` | assistant/answering/answer.py:1318-1333 | rows numbered from one, `first` exactly at a document's first row |
| `Figures.FigureExactly` | assistant/answering/answer.py:678-704 | any token that begins with a digit, range and unit included, is accepted if and only if it stands in the passage from the start of a maximal-munch literal on, with neither digit nor decimal point pressed against its end |
| `Figures.PublishedIsRun` | assistant/answering/answer.py:681-700 | the numbers of an accepted figure are whole numbers of the passage that follow each other there, so none passes as tail or head of another |
| `Figures.LiteralsCut` | assistant/answering/answer.py:701-703 | a text cut where no number is broken has the literals of its two parts |
| `Figures.StartsWhen` | assistant/answering/answer.py:701-703 | the lookbehinds hold in front of a digit if and only if a literal starts there |
| `Figures.UnitOccurs` | assistant/answering/answer.py:703 | a figure with a unit that stands at the start of a literal breaks no number, and is accepted if and only if neither digit nor decimal point follows |
| `Figures.PressedUnit` | assistant/answering/answer.py:703 | a published figure that is refused, because the next sentence begins with a digit |
| `Figures.DocumentedCases` | assistant/answering/answer.py:681-698 | the kilogram and the range cases of the documentation |
| `Figures.PublishedExactly` | assistant/answering/answer.py:678-704 | a bare number, without range or unit, is accepted if and only if it is a whole number literal of the passage |
| `Figures.FormsAreNumbers` | assistant/answering/answer.py:272 | digits, and digits with a decimal part, are bare numbers |
| `Figures.FormsAreFigures` | assistant/answering/answer.py:271-276 | a number with perhaps a second one behind a hyphen and perhaps a unit begins with a digit, and its literals are its numbers and those of its unit |
| `Ledger.Crawl.ArchiveSource` | assistant/indexing/crawl.py:157-169 | a path is written once; other content under it is an error |
| `Ledger.Crawl.Reconcile` | assistant/indexing/crawl.py:103-154 | the ledger and the archive after one fetch |
| `Ledger.LedgerIsLog` | assistant/indexing/crawl.py:103-154 | in every run over many urls an entry's hashes are the observed ones with consecutive repeats collapsed, versions count them, `supersedes` is the one before, first-seen never moves |
| `Ledger.VersionsStayReadable` | assistant/indexing/crawl.py:157-169 | every version ever recorded has its file, which still hashes to the recorded digest, and no file is ever changed |
| `Ledger.NothingRefused` | assistant/indexing/crawl.py:166-168 | over an intact archive, as long as no two of the contents collide, nothing is refused |
| `Ledger.LedgerIsObserved` | assistant/indexing/crawl.py:103-154 | so the ledger is the log of every fetch observed of that url |
| `Ledger.RecordTells` | assistant/indexing/crawl.py:112-154 | in every run the current record says when it was last checked, when this version was first fetched, what the server last said of it, and whether the last fetch brought anything new |
| `DeltaBuild.Classify` | assistant/indexing/index.py:240-280 | the classification loop computes the four lists and the ledger it leaves |
| `DeltaLaws.VerifiedExactly` | assistant/indexing/index.py:255-271 | a cached file is accepted exactly if it is there and is what the ledger has a whole digest of, or, for a page never archived, if its decoded text is |
| `DeltaLaws.FailedExactly` | assistant/indexing/index.py:249-271 | what fails: fetches that failed and files that are not accepted |
| `DeltaLaws.LedgerAfter` | assistant/indexing/index.py:257-272 | a confirmed digest goes into the ledger, otherwise it keeps what it had |
| `DeltaLaws.ListsMembers` | assistant/indexing/index.py:240-280 | a url is new or changed if and only if its digest is confirmed and is not the one served, unchanged if and only if it is |
| `DeltaLaws.BuildAt` | assistant/indexing/index.py:499-570 | what a build serves under one url: staff, fixture, crawled document, removal, or the version before |
| `DeltaLaws.CrawledIsServed` | assistant/indexing/index.py:528-535 | whatever was served, a build serves an accepted document as it was crawled, unless an author claims its url |
| `DeltaLaws.AuthoredIsServed` | assistant/indexing/index.py:504-510 | and an authored source as it is, unless the crawl claims a fixture's url |
| `DeltaLaws.WithdrawnExactly` | assistant/indexing/index.py:513-517 | withdrawn is exactly what a crawl without errors no longer lists and no author claims |
| `DeltaLaws.DeltaIsRebuild` | assistant/indexing/index.py:471-474 | a delta serves what a rebuild over the same crawl serves, if and only if no served fixture clashes with a crawled document |
| `DeltaLaws.FailedKeepsOld` | assistant/indexing/index.py:240-268 | a source that failed, be it not fetched, missing, not confirmed or not extracted, keeps its old version |
| `DeltaLaws.ErrorsRemoveNothing` | assistant/indexing/index.py:511-516 | a crawl with errors removes nothing |
| `DeltaLaws.SecondDeltaIdle` | assistant/indexing/index.py:240-280 | an immediate second delta has no update for a url and leaves what is served under it if and only if no fixture and crawled document claim it together; it then reprocesses only what failed |
| `DeltaLaws.DeltasSettle` | assistant/indexing/index.py:499-570 | the second delta as a whole changes nothing if and only if there is no such url |
| `DeltaLaws.DoubledFlips` | assistant/indexing/index.py:504-510 | for such a url each delta serves the other of the two versions, and a rebuild the fixture |
| `EmbeddingCache.Cache.GetMany` | assistant/indexing/embedcache.py:69-88 | exactly the known positions, whatever the windows, and the counters |
| `EmbeddingCache.Cache.PutMany` | assistant/indexing/embedcache.py:90-98 | the table after writing the pairs in order, rounded |
| `EmbeddingCache.KeysSeparate` | assistant/indexing/embedcache.py:43-45 | two keys are the same if and only if model, dimensions and the text's digest are |
| `EmbeddingCache.OtherModelUnseen` | assistant/indexing/embedcache.py:69-98 | rows of another model or size are never found |
| `EmbeddingCache.KnownRepresents` | assistant/indexing/embedcache.py:69-88 | what is found stands for the text at that position |
| `EmbeddingCache.StoredHonest` | assistant/indexing/embedcache.py:90-98 | writing keeps every row, of any model, the rounded embedding of its keyed text |
| `EmbeddingCache.Distribute` | assistant/indexing/index.py:607-611 | one running position gives each chunk of each document its own vector |
| `EmbeddingCache.EmbedChunks` | assistant/indexing/index.py:580-611 | after the build every chunk's vector, once rounded, is the rounded embedding of that chunk's text, and the rows stay honest |
| `Router.DecisionExactly` | assistant/answering/router.py:827-928 | which path is taken, by the evidence: each of refuse, defer, diagnosis, ask back, extract and compose with its exact condition |
| `Router.DecisionCarries` | assistant/answering/router.py:844-928 | the missing term, the words asked for, the refused sum, both locations and the photograph, each with its exact condition |
| `Router.AskedExactly` | assistant/answering/router.py:574-633 | what was asked and by which words: coverage for a quantity, any word of any property named, or the question's own phrase |
| `Router.Respelled` | assistant/answering/router.py:641-648 | the spellings of a phrase |
| `Router.UnsupportedExactly` | assistant/answering/router.py:724-739 | past steps 1 to 3 the unsupported terms are not empty if and only if routing refuses at step 4, for want of that property; past the gates the decision carries the gate's words |
| `Router.PresentGrows` | assistant/answering/router.py:650-653 | a term that the evidence states stays stated when evidence is appended |
| `Router.EvidenceNeverMovesBack` | assistant/answering/router.py:741-928 | appending evidence never moves a decision to an earlier step, and moves it at all only from steps 4, 4s and 7 |
| `Router.QuestionOverrides` | assistant/answering/router.py:799-824 | what was carried counts only for slots that the question itself does not state |
| `Router.GateReadsPassages` | assistant/answering/router.py:650-653 | the gate finds a term exactly where a single passage states it, for all evidence, if and only if the term has no space |
| `Topics.AttachInstructions` | assistant/answering/router.py:203-217 | the joining loop computes the attachment that the laws are about |
| `Topics.AttachedKeepsQuestions` | assistant/answering/router.py:200-217 | the joined texts are consecutive groups of the parts with one question each; no part is lost, reordered or merged with another question |
| `Topics.SplitsForTwoJobs` | assistant/answering/router.py:218-239 | a message is split if and only if two of its parts fall under different policy topics, or one under none |
| `Topics.CandidatesExactly` | assistant/answering/router.py:198-219 | without an instruction about sources the parts are exactly the trimmed pieces of at least three words |

## Left out

- JsonParser.LoadsExact: Python's limits on nesting depth and on the length of an integer are not modelled, and raw text holds no lone surrogates; escapes may still decode to them.
- Decode.DecodeText: confidences and coordinates are real numbers, so float rounding (a value just under 100, a huge integer) is not modelled; case mapping is an abstract function; the model's name and the duration are not carried.
- Resolve.ResolveAll: the vocabulary patterns and the search for a declined attribute's name are abstract predicates; the texts of `discarded`, the `sources` tuples, the split into context and conditions and the order of the attributes are not carried.
- Truncation.SalvageExact: for responses whose first field is a list with the name `observations` written plainly; other field orders are not covered.
- ResolveLaws.SlotsIgnoreOrder: a sufficient condition on the ties of two attributes; the exact one is `ResolveOrder.SlotsIgnoreOrderExactly`.
- JobQueue.Queue.Claim: SQLite's transaction is one atomic step, tokens come from a counter instead of a uuid, and time is an argument; the rollback when the database itself fails is left out.
- JobQueue.Queue.Work: the crawl and the build it runs are one argument, their outcome, and what other invocations do meanwhile is another.
- AnswerCache.Cache.Get: the lock makes each method one critical section, modelled as an atomic step; a negative capacity, for which the source raises, is not modelled.
- CacheKey.SameEntryExactly: slot values are strings; lowering maps single characters.
- Chunker.SplitText: the bullet pattern is an abstract finder of increasing positions.
- Citations.FinishedWhen: only the renumbering and filtering; caveats, facts and disclosures that `_finish` adds afterwards are text assembly. Digits are the ASCII ones.
- Figures.FigureExactly: about the strings it is given; the normalisation before it, which removes white space and so may press a figure against what follows, is not modelled. Digits are the ASCII ones.
- Ledger.LedgerIsLog: about the fetches that were recorded; `Ledger.NothingRefused` says when these are all. `atomic_write` is an atomic map update.
- DeltaLaws.DeltaIsRebuild: for a crawl with distinct urls and a store that applies updates in order and then removals; extraction is an abstract predicate, and the refusal to change the index configuration with failed sources is left out.
- EmbeddingCache.EmbedChunks: assumes that no two of the texts have the same digest and that rounding is idempotent; fresh vectors stay unrounded as in the source, hence the comparison after rounding; vector validation is left out.
- Router.EvidenceNeverMovesBack: the detectors are functions of the question and the slots; evidence terms per property and the substrate class carried on a decision are left out.
- Topics.SplitsForTwoJobs: where a message may be cut, what is an instruction and which topic matches are abstract.
- `promote_bound` (assistant/answering/answer.py:499-533): moves one element to the front; a single branch settles it.
- Prompts, rendering, spans, health reports, HTTP, PDF and HTML extraction, retrieval, the turn graph and the conversation reducer.
- The relation, assertion and condition parsers of the answer checks, whose content is their pattern tables.
