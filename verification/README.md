# A verified model of the store's workbench, blobs and lift harness

The repository keeps a content-addressed store and several programs that read what it holds. This project
models the parts whose correctness is an argument rather than a lookup, and proves what they promise.

* **The trunk engine** folds pages of an append-only word of receipts into sixteen bounded lane carriers: a
  count, the last 512 receipts and the newest seq. A placement turns the carriers into strips and squares, and
  an edge-snapping map turns those into integer rectangles. The carrier is a cache of the word; the results say
  that redelivery, overlap, rewinds and truncated stores never make it disagree with the word, that the picture
  covers every row once, and that no two rectangles overlap. (`TrunkModel`, `TrunkFold`, `TrunkFoldLaws`,
  `TrunkPlacement`, `TrunkPlace`, `WordDrain`)
* **The blob tree** is written by a rechunking writer and read by a verified reader that can prune to a byte
  range. The results say that how a stream is cut into parts never shows, that a blob that was written reads
  back, that a range read is the slice of the whole read, that nothing reads but the graph of its bytes, and when
  a write succeeds. (`CasStore`, `BlobGraph`, `BlobRead`, `BlobWrite`, `BlobSound`, `BlobAdmission`)
* **The lift harness** recognizes straight-line store programs in TypeScript generators, and compares two
  recognizers through canonical JSON. The results say exactly what is refused and why, when a lift means what the
  declaration does, that lifting undoes printing, and that the comparison hides nothing but a position. (`TsAst`,
  `Recognizer`, `LiftRefusals`, `LiftMeaning`, `LiftLaws`, `LiftPreserves`, `LiftExact`, `LiftRoundTrip`,
  `LiftWitness`, `CodeUnits`, `Decimal`, `JsonText`, `CanonJson`, `Gate`, `Batching`)
* **The readings of a source text** mask it, find the spans the sieve anchors, join them with construct hits,
  replay its brackets, order the module graph and combine the measures. Each algorithm is proved against a
  declarative description of its result. (`Mask`, `MaskTokens`, `SourceLines`, `Hits`, `Spans`, `BracketReplay`,
  `PageReplay`, `SortedTexts`, `Graph`, `GraphLaws`, `Measures`)

A loop of the source is a method here, proved against a function or a predicate; the lemmas are about those.
The blob writer, whose buffer is filled in place, is a class. Automatic induction is off in every lemma: a proof
is what its body says.

## Where the code and what is said of it differ

* `terminators(e, e, m)` is said to be empty. It reports `carrier` for an unchanged epoch as soon as a lane holds
  more receipts above its floor than its carrier does. `TrunkPlace.UnchangedEpochEnds` gives the exact condition
  and `TrunkPlace.UnchangedEpochCanEnd` a fold after which it happens.
* A rectangle is said to be the same at every viewport that shows it, up to a translation by whole pixels.
  `TrunkPlace.ScrollTranslates` proves it where all edges move by one number of pixels, and
  `TrunkPlace.ScrollExactly` says, for every rational ratio, between which origins they do: always at a whole
  ratio, and always when the origins are whole device pixels apart. `TrunkPlace.ScrollCanReshape` is a pair of
  viewports where a height changes.
* The recognizer does not look at scope, nor at an initializer that a later key of its literal overwrites. It
  accepts, for instance, a binder named `hex`, a binder named `eval`, a store parameter named like the import that
  is called, a name that `var` declares twice, and any overwritten initializer at all. `LiftExact.FateOf` sorts
  the accepted declarations, before they run, into those that keep their meaning (exactly the hygienic ones),
  those that throw or never start, those that lose an answer to a second `var`, and those that do something the
  model says nothing about. `LiftPreserves.LiftPreservesMeaning`, `LiftExact.FateDecides` and
  `LiftExact.RebindsDiffers` prove it of each class, `LiftExact.MeaningKeptExactly` says that outside the last
  class meaning is kept if and only if the declaration is hygienic, and `LiftWitness` has declarations in every
  class. The last class is entered through an overwritten initializer that is not modelled, such as another
  `yield*` (`LiftExact.LeavesOnlyByOverwriting`), or through the marks the recognizer passes over: an `async`
  arrow or generator, a second argument, parameters of the generator that are patterns, defaulted or rest,
  `using` or a modifier on a binding, a chain that ends in `gen` and is not the effect library's, a declaration or
  a generator itself named `hex`, and a payload called `hex?.(..)` where `hex` is hidden.
* `maskSource` is said to preserve length and newlines. `Mask.ShapeKept` says exactly when it does: unless a
  backslash inside a string or a template ends the source or stands right before a newline; `Mask.ShapeLost` is
  such a source. On a page those are also exactly the sources whose masked lines are not aligned with the raw
  ones (`BracketReplay.PageAligned`).
* `depthDelta` and the replay count brackets and never compare their kinds, so `(]` is a pair; the results about
  the replay are stated for brackets mismatched in any way.

## Model

| member | source | states |
|---|---|---|
| TrunkFold.DecodeHistory | experiments/workbench/src/trunk/fold.ts:64-85 | the door's loop with its moving `previous` refuses at the first fault in reading order and otherwise accepts the page unchanged |
| TrunkFoldLaws.DoorAcceptsExactlyWellFormed | experiments/workbench/src/trunk/fold.ts:64-85 | a document is accepted if and only if its mark is an index, its seqs strictly ascend from 0 and every address is 64 lowercase hex; a refusal names the first receipt that breaks this |
| TrunkFold.FoldPage | experiments/workbench/src/trunk/fold.ts:117-149 | the bucketing loop gives every lane exactly the receipts both guards admit, in page order, refuses a page behind the mark and leaves untouched lanes alone |
| TrunkFold.FoldDocument | experiments/workbench/src/trunk/fold.ts:157-166 | decode then fold; a malformed document moves neither mark nor columns |
| TrunkFoldLaws.GrownTwice | experiments/workbench/src/trunk/fold.ts:94-105 | growing a carrier twice, truncating each time, is growing it once by both additions |
| TrunkFoldLaws.FoldStepAgrees | experiments/workbench/src/trunk/fold.ts:117-149 | folding any slice of the word that starts at or before the mark keeps every lane equal to the one computed afresh from the longest prefix reached |
| TrunkFoldLaws.FoldRefinesWord | experiments/workbench/src/trunk/fold.ts:94-149 | from the empty model, after any run of refused documents and slices with duplicates, overlaps and rewinds, every lane's count, tail and revision are those computed afresh from the word up to the largest mark reached |
| TrunkFoldLaws.RunMarks | experiments/workbench/src/trunk/fold.ts:117-166 | over every run the mark is the `next` of the last accepted document, wherever that lies; the status is a truncation exactly when that `next` lay behind the mark held before, and then no column moved; a malformed document moves nothing |
| TrunkFoldLaws.LaneCountsPartition | experiments/workbench/src/trunk/model.ts:163-164 | the sixteen lane counts of a word add up to its length: nothing is lost or counted twice |
| TrunkFoldLaws.IncrementalEqualsBatch | experiments/workbench/src/trunk/fold.ts:89-149 | folding two adjacent pages one after the other is folding their concatenation, for every valid model |
| TrunkFoldLaws.ValidInValidOut | experiments/workbench/src/trunk/fold.ts:157-166 | every document, accepted or refused, takes a model that satisfies the carrier invariant to one that does |
| WordDrain.SinceAnswersASlice | library/effects/src/cas/WordLog.ts:165-267 | a page is refused exactly for a bound below one, is empty exactly from a mark at or past the end, and is always a slice the fold can take, a mark below zero read as zero |
| WordDrain.SinceHoldsItsBound | library/effects/src/cas/WordLog.ts:165-267 | a page starts at the floored mark and holds exactly the least of its caller's bound, the cap and what is left of the word |
| WordDrain.PollingTracksWord | library/effects/src/cas/WordLog.ts:257-265 | a client polling with its own mark while the store's word is cut back and grows again holds the word's carrier up to the largest page end polled |
| WordDrain.OnePoll | library/effects/src/cas/WordLog.ts:257-265 | a poll that finds the store shorter than the mark is refused, sets the mark back to the store's length and changes no column; any other is taken, and goes as far as the cap allows |
| WordDrain.PollingCatchesUp | library/effects/src/cas/WordLog.ts:257-265 | while the store holds n receipts, more or fewer than the client ever reached, enough polls bring the mark to n and the status to live, with the carrier of everything ever reached |
| WordDrain.PollingFollowsBackAndOn | library/effects/src/cas/WordLog.ts:257-265 | and a client that followed a truncated store back reaches its new length when it grows again |
| WordDrain.DrainFrom | library/effects/bin/cli/history.ts:127-149 | the recursive drain ends, for every bound of one or more and while the word grows, with the receipts from the mark to its cursor, which is a length the word had and no shorter than at the first pull |
| WordDrain.DrainIsSnapshot | library/effects/bin/cli/history.ts:104-149 | the pages pulled from a word that may grow concatenate to the word between mark and cursor, none is over the bound, and of a word that does not grow this is the whole suffix |
| WordDrain.DrainFoldsAsOneDocument | library/effects/bin/cli/history.ts:127-149 | folding the drain's pages one by one is folding the one drained document, whether or not the word grew |
| TrunkPlacement.PlacementOf | experiments/workbench/src/trunk/placement.ts:68-85 | the nested loops push, column by column, one strip below the painted floor and one square per row the carrier holds above it |
| TrunkPlacement.PlacementExactly | experiments/workbench/src/trunk/placement.ts:55-85 | for every valid model and any floors, an op is in the placement if and only if it is the square of a row at or above the floor that the carrier holds, with the address held for it, or its column's one strip, which ends where those rows begin |
| TrunkPlacement.ExactlyOnceCover | experiments/workbench/src/trunk/placement.ts:55-85 | for every valid model and any floors the ops are in canonical order, every row below a column's count is covered by exactly one op and nothing else is, and the op total is the total count |
| TrunkPlacement.ReachablePlacement | experiments/workbench/src/trunk/placement.ts:68-85 | for every model a run can reach the cover is of the word itself, and the square at row r carries the address of the r-th receipt ever admitted to its lane |
| TrunkPlacement.ReachableSquares | experiments/workbench/src/trunk/placement.ts:68-85 | of a reachable model the squares of a lane are exactly the rows at or above the floor among the last 512 of the delivered word, each with the address of that receipt |
| TrunkPlacement.CutDoiIsCut | experiments/workbench/src/trunk/placement.ts:40-43 | a cut puts every floor at or below its column's count |
| TrunkPlacement.CutShowsNewest | experiments/workbench/src/trunk/placement.ts:40-43 | after a cut to n visible rows the squares of a column are exactly its newest rows, n of them or as many as the carrier holds |
| TrunkPlacement.ColumnExtends | experiments/workbench/src/trunk/placement.ts:70-83 | while the carrier still reaches the floor, growth appends squares from the old count on and changes no old op of the column |
| TrunkPlace.Place | experiments/workbench/src/trunk/place.ts:117-143 | the painting loop emits, in op order, the snapped rectangle of each op in the overdrawn view and nothing else |
| TrunkPlace.PlacedExactly | experiments/workbench/src/trunk/place.ts:117-143 | a rectangle is painted if and only if its op is among the ops, the op's css band meets the viewport widened by 300 above and below, and each edge is its css edge in device pixels rounded half up |
| TrunkPlace.PlacedInOrder | experiments/workbench/src/trunk/place.ts:128-141 | the rectangles come in the order of their ops, none twice |
| TrunkPlace.EpochShowsWhatItPainted | experiments/workbench/src/trunk/place.ts:195-221 | while no terminator is reported between two epochs, every op whose band meets the screen of the later one was painted at the earlier one's viewport, at the ratio and width the later one still has |
| TrunkPlace.SilentEpoch | experiments/workbench/src/trunk/place.ts:195-221 | no terminator is reported if and only if nothing changed but the scroll origin, by less than 200, and every carrier reaches its floor |
| TrunkPlace.DeviceMapsMonotone | experiments/workbench/src/trunk/place.ts:124-125 | snapping an edge is monotone for every positive pixel ratio and every origin, rounding halves up |
| TrunkPlace.LanesApart | experiments/workbench/src/trunk/place.ts:75-89 | every lane ends before a later one starts, through intra, class and residue gutters |
| TrunkPlace.LanesLaidOut | experiments/workbench/src/trunk/place.ts:75-89 | the lanes are 12 wide, from 0 to 507, with a gap of 45 before the residue lane, 30 before the first of a class and 15 elsewhere |
| TrunkPlace.EveryPlacementPaintsDisjointly | experiments/workbench/src/trunk/place.ts:117-143 | for every valid model, every floors, every viewport and every positive pixel ratio no two rectangles overlap |
| TrunkPlace.ToSortedKeeps | experiments/workbench/src/trunk/place.ts:151 | sorting for the sweep is a sorted permutation and does not change which pairs overlap |
| TrunkPlace.IsDisjoint | experiments/workbench/src/trunk/place.ts:150-163 | the sweep with its early break answers true if and only if no two rectangles overlap |
| TrunkPlace.PaintedIsFilter | experiments/workbench/src/trunk/place.ts:128-141 | culling only filters: an op in view paints its own rectangle whatever else is in view, and every rectangle is that of a visible op |
| TrunkPlace.ScrollTranslates | experiments/workbench/src/trunk/place.ts:112-115 | at two viewports between which every css edge moves by one number of device pixels, a rectangle painted at one is painted at the other, moved by those pixels and otherwise the same, if its op is in view |
| TrunkPlace.ScrollExactly | experiments/workbench/src/trunk/place.ts:112-125 | at a ratio p/q in lowest terms all whole css edges move by one number of pixels if and only if the origins' grid offsets, counted in q-ths of a pixel, differ by a multiple of q |
| TrunkPlace.WholePixelsShift | experiments/workbench/src/trunk/place.ts:112-125 | origins a whole number of device pixels apart move every edge by that number, at every ratio |
| TrunkPlace.WholeRatioShifts | experiments/workbench/src/trunk/place.ts:112-125 | at a whole ratio any two origins move every edge by one number of pixels |
| TrunkPlace.ScrollCanReshape | experiments/workbench/src/trunk/place.ts:112-115 | two viewports a fraction of a device pixel apart at which one strip has different heights |
| TrunkPlace.Terminators | experiments/workbench/src/trunk/place.ts:200-221 | each terminator is reported, once and in the declared order, if and only if its own condition holds |
| TrunkPlace.UnchangedEpochEnds | experiments/workbench/src/trunk/place.ts:195-221 | an unchanged epoch reports nothing if and only if every carrier still reaches its floor |
| TrunkPlace.UnchangedEpochCanEnd | experiments/workbench/src/trunk/place.ts:195-221 | one delivered page of 513 receipts of one lane leaves a model on which an unchanged epoch reports `carrier` |
| TrunkPlace.ExtensionLaw | experiments/workbench/src/trunk/place.ts:190-221 | when neither `cut` nor `carrier` is reported, the ops of the held placement are, unchanged and in order, those of the grown one that start below the old counts, and every other op is a square at or above its column's old count |
| TrunkPlace.GrowthMovesNothing | experiments/workbench/src/trunk/place.ts:93-143 | under the same premises every rectangle that was painted is painted again, at the same place |
| CasStore.PutLoads | library/effects/src/cas/Store.ts:266-325 | an accepted put loads back as the node, under its own address, and leaves every resident node as it was |
| CasStore.PutExactly | library/effects/src/internal/admission.ts:64-99 | a put is refused for its first broken reference, absent or of another kind; then for an address that holds another node; then for a declined write of a node that is not yet resident; and otherwise adds the node at its address and nothing else |
| BlobGraph.Pow2BelowIsLargest | library/effects/src/internal/blobGraph.ts:20-21 | the split is the largest power of two strictly below the count |
| BlobGraph.DecodeEncodedManifest | library/effects/src/internal/blobGraph.ts:84-114 | decoding an encoded manifest gives back its three fields, for every value that fits its width |
| BlobGraph.EncodeDecodedManifest | library/effects/src/internal/blobGraph.ts:84-114 | and every sixteen-byte payload is the encoding of what it decodes to |
| BlobRead.GeometryIsLeafCount | library/effects/src/cas/Blob.ts:200-217 | a plan passes exactly when its recipe is one and its leaf count is what its bytes need |
| BlobRead.WholeWalkGeometry | library/effects/src/cas/Blob.ts:288-330 | a whole walk that succeeds yields one chunk per leaf, each of its geometric length, and together exactly the bytes of the subtree |
| BlobRead.RangeWalkCutsWhole | library/effects/src/cas/Blob.ts:288-330 | for every subtree and every range, the pruned walk succeeds where the whole walk does and carries exactly the range's part of its bytes |
| BlobRead.RangeReadRefinesWholeRead | library/effects/src/cas/Blob.ts:200-217 | whenever a whole blob reads, its bytes number `totalBytes` and every in-bounds range reads, and joins to, exactly the slice of them |
| BlobRead.Join | library/effects/src/cas/Blob.ts:332-351 | filling the buffer chunk by chunk gives the concatenation, followed by zeros where the chunks do not fill it, and refuses exactly an unsafe size or chunks that exceed it |
| BlobRead.ReadRangeIsPartOfGet | library/effects/src/cas/Blob.ts:405-427 | where `get` answers bytes, `readRange` answers their slice for every in-bounds range |
| BlobRead.RangeWalkLocal | library/effects/src/cas/Blob.ts:288-330 | a range walk depends on no subtree that does not meet the range: loaders that agree on those that do give the same stream, failures included |
| BlobRead.RangeReadsDespiteLoss | library/effects/src/cas/Blob.ts:288-330 | a range reads, and reads the blob's bytes, from a store that lost or damaged anything outside it |
| BlobSound.ParentLoads | library/effects/src/cas/Blob.ts:219-235 | a parent loads with two children if and only if the resident node is the empty one that names them in that order; an absent one is named, and any other is malformed |
| BlobSound.ChunkLoads | library/effects/src/cas/Blob.ts:237-280 | a chunk loads if and only if the leaf at the address is that of its own position and length and the chunk it names holds those bytes |
| BlobSound.ChunkRefuses | library/effects/src/cas/Blob.ts:237-280 | a chunk load that fails names the absent one of its two nodes, and otherwise answers that the graph is malformed |
| BlobSound.PlanResolves | library/effects/src/cas/Blob.ts:160-217 | a reference resolves if and only if it is a manifest of recipe 1, every field of it within its width, whose leaf count is what its bytes need |
| BlobSound.PlanRefuses | library/effects/src/cas/Blob.ts:160-217 | one that does not resolve is absent, or a manifest of another recipe, which is named, or malformed |
| BlobSound.TreeStreams | library/effects/src/cas/Blob.ts:288-330 | a subtree streams a run of chunks without failure if and only if the store holds, at every node of it, the parent at the ratified split or the leaf of that position |
| BlobSound.ReadsExactlyGraphs | library/effects/src/cas/Blob.ts:200-330 | a reference reads as these bytes if and only if they are within the declared bound and exactly their recipe-1 graph is resident there: the reader accepts nothing else |
| BlobSound.ReadRangeExactly | library/effects/src/cas/Blob.ts:405-427 | of a readable blob every range answers its slice, a length over the bound is refused as such, and every other range outside the bytes as out of range |
| BlobWrite.SplitGeometry | library/effects/src/cas/Blob.ts:155-158 | the canonical split loses nothing and has the leaf count and chunk lengths the reader demands |
| BlobWrite.SplitUnique | library/effects/src/cas/Blob.ts:237-241 | and it is the only list of chunks with that geometry for its bytes |
| BlobWrite.ChunkWriter.Feed | library/effects/src/cas/Blob.ts:454-467 | copying one part through the buffer, admitting it each time it fills, appends exactly the part to what was fed, or stops on the failing admission |
| BlobWrite.ChunkWriter.Finish | library/effects/src/cas/Blob.ts:468-477 | the end of the stream leaves the graph of the canonical split of everything fed |
| BlobWrite.PutBlob | library/effects/src/cas/Blob.ts:429-480 | for every stream of parts, full or failing, store and answer are those of the canonical split of the concatenation, so two streams with the same bytes leave the same graph |
| BlobWrite.TreeIsShaped | library/effects/src/internal/blobGraph.ts:164-217 | the tree that is built has, at every node, the split and the node shapes the reader checks |
| BlobWrite.WrittenBlobStreamsBack | library/effects/src/cas/Blob.ts:429-480 | a blob that was written resolves to its size, passes the reader's checks and streams back its canonical chunks |
| BlobWrite.WrittenBlobReadsBack | library/effects/src/cas/Blob.ts:405-415 | put then get is the identity on bytes, up to the declared materialization bound, which is refused |
| BlobSound.WrittenBlobStands | library/effects/src/internal/blobGraph.ts:135-240 | after a write that succeeds exactly the recipe-1 graph of the bytes is resident at the answer, for every size |
| BlobAdmission.WriteIsPuts | library/effects/src/internal/blobGraph.ts:135-240 | a write is the puts, in order, of a list of nodes that is read off the bytes and the address scheme alone |
| BlobAdmission.WriteExactly | library/effects/src/internal/blobGraph.ts:135-240 | on every store a write stops at the first of those nodes whose address another node has or whose write the backend declines, answers that refusal and leaves the nodes before it; if there is none it answers the manifest's address and leaves all of them |
| BlobAdmission.WriteSucceedsExactly | library/effects/src/internal/blobGraph.ts:135-240 | so it succeeds if and only if its leaves can be counted in 32 bits and nothing is in the way of any of its nodes: a reference never is |
| BlobAdmission.AddressIsOfBytes | library/effects/src/cas/Blob.ts:429-480 | two writes of the same bytes under one scheme, into any two stores, answer one address |
| BlobAdmission.WriteTwice | library/effects/src/cas/Blob.ts:429-480 | writing a blob again, into the store it left or one grown from it, changes nothing and answers the same |
| BlobAdmission.AddressMeansBytes | library/effects/src/cas/Blob.ts:429-480 | two writes that answer one address, the second into a store grown from the first, wrote the same bytes, whatever the scheme |
| Recognizer.ChainParts | experiments/lift-harness/src/lift.ts:35-46 | the cursor loop collects the names of a plain member chain through parentheses and refuses `?.` and any other head |
| Recognizer.SpineOptional | experiments/lift-harness/src/lift.ts:50-63 | the cursor loop finds `?.` or `!` anywhere in the spine |
| Recognizer.LiftDecl | experiments/lift-harness/src/lift.ts:87-174 | the unwrapping, the statement loop and its exits, with every refusal code in the source's order |
| LiftRefusals.RefusedExactly | experiments/lift-harness/src/lift.ts:87-174 | a declaration is refused with a code if and only if that is the code of its first fault in reading order: of its frame, or, under a faultless frame, of the first statement that is not a binding without fault |
| LiftRefusals.AcceptedExactly | experiments/lift-harness/src/lift.ts:87-174 | and it is lifted, under its own name and its parameter's, if and only if it has no fault |
| LiftRefusals.BindingAnswers | experiments/lift-harness/src/lift.ts:124-151 | a binding is refused with the code of the first of its checks that fails: declarations, binder, `yield*`, optional marks, call, spine, answer as receiver, imported or foreign head, member, argument count, and then the node's |
| LiftRefusals.NodeAnswers | experiments/lift-harness/src/lift.ts:177-246 | a node literal is refused with the code of its first failing check: closure, shape, kind, version, tag, payload, refs, and each ref in turn with its shape, id, binding and tag |
| LiftRefusals.ChainIsSpine | experiments/lift-harness/src/lift.ts:40-60 | a spine is read as these names if and only if it is the plain member chain of them, parentheses aside |
| LiftRefusals.OptionalIsMarked | experiments/lift-harness/src/lift.ts:48-62 | a spine counts as optional if and only if some link of it, through calls, accesses and parentheses, is marked `?.` or `!` |
| LiftRefusals.PayloadIsBytes | experiments/lift-harness/src/contract.ts:178-180 | the payload domain is exactly the lower-case hexadecimal spellings of byte strings |
| Recognizer.LookupFinds | experiments/lift-harness/src/lift.ts:181-187 | a key of a literal is present if and only if some assignment has it, and what it holds is one of those |
| Recognizer.AcceptedLiftIsStraightLine | experiments/lift-harness/src/lift.ts:111-169 | every accepted lift has index i at position i, every reference below its own index, every number in 32 bits and every payload in the hex domain |
| LiftPreserves.AcceptedShaped | experiments/lift-harness/src/lift.ts:111-169 | an accepted body is its bindings, one binder and one instruction each, and then the return of exactly the binders |
| LiftPreserves.ShapedAccepted | experiments/lift-harness/src/lift.ts:111-169 | and every body of that shape is accepted, with exactly those binders and instructions |
| LiftLaws.EvalPropsByLookup | experiments/lift-harness/src/lift.ts:181-187 | an object literal of plain assignments, none to `__proto__`, gives a value if and only if its effective and its overwritten initializers do, and then holds the effective ones |
| LiftLaws.EvalAlike | experiments/lift-harness/src/lift.ts:177-246 | whether an expression gives a value, throws or leaves the model never depends on which addresses the store answered |
| LiftPreserves.StatementPuts | experiments/lift-harness/src/lift.ts:124-151 | an accepted binding asks the store for exactly its instruction's node, throws, or leaves the model, and which of the three is known before anything runs |
| LiftPreserves.LiftPreservesMeaning | experiments/lift-harness/src/lift.ts:87-174 | on every store, under every put, failing or not, running an accepted hygienic declaration, from the call of `gen` on, ends with the same state, word and failure as its instructions |
| LiftExact.KeepsIsHygienic | experiments/lift-harness/src/lift.ts:87-174 | the declarations sorted as keeping their meaning are exactly the hygienic ones |
| LiftExact.FateDecides | experiments/lift-harness/src/lift.ts:87-174 | on a store that never fails, an accepted declaration sorted as broken throws or never starts, and one sorted as leaving the model reaches what is not modelled, where its instructions run to the end |
| LiftExact.RebindsDiffers | experiments/lift-harness/src/lift.ts:124-151 | an accepted declaration in which `var` declares a name twice ends differently from its instructions on every store that answers fresh addresses |
| LiftExact.MeaningKeptExactly | experiments/lift-harness/src/lift.ts:87-174 | an accepted declaration that stays inside the model means its instructions if and only if it is hygienic; a store of fresh addresses tells |
| LiftExact.LeavesOnlyByOverwriting | experiments/lift-harness/src/lift.ts:181-187 | an accepted declaration that plainly runs its generator, calls its payloads plainly and does not take the helper's name itself leaves the model only if an overwritten initializer does |
| LiftRoundTrip.LiftUndoesPrint | experiments/lift-harness/src/lift.ts:87-174 | a straight-line program printed in the emitted shape with distinct binders that differ from the store's name lifts to exactly itself |
| LiftRoundTrip.PrintedFate | experiments/lift-harness/examples/blobTree32.ts:4-103 | what becomes of a printed program is read off its names: it breaks if they hide what it uses or may not be bound, leaves the model if it puts anything and is itself named `hex`, and keeps its meaning otherwise |
| LiftRoundTrip.PrintedRuns | experiments/lift-harness/examples/blobTree32.ts:4-103 | so it runs on every store as itself, throws on every store that never fails, or leaves the model, by its names alone |
| LiftWitness.BinderNamedHex | experiments/lift-harness/src/lift.ts:124-151 | a one-instruction declaration with a binder named `hex` is accepted and throws |
| LiftWitness.StoreNamedEffect | experiments/lift-harness/src/lift.ts:94-106 | a one-instruction declaration whose store parameter is named like the import is accepted and throws |
| LiftWitness.StrictNames | experiments/lift-harness/src/lift.ts:94-151 | a binder named `eval` and a store parameter named `arguments` are accepted, and neither program starts |
| LiftWitness.OverwrittenDecides | experiments/lift-harness/src/lift.ts:181-187 | an initializer overwritten by a later key is accepted whatever it is, and the declaration keeps its meaning, throws or leaves the model as that initializer gives a value, throws or is not modelled |
| LiftWitness.OptionalCalls | experiments/lift-harness/src/lift.ts:181-187 | an overwritten `null?.()`, or a further call in its chain, keeps the declaration's meaning; a call of it in parentheses throws |
| LiftWitness.VarTwice | experiments/lift-harness/src/lift.ts:124-151 | a two-instruction declaration in which `var` declares one name twice is accepted and loses an answer |
| Decimal.ReadPrinted | experiments/lift-harness/src/contract.ts:170-173 | a number prints to a canonical literal that reads back as it |
| Decimal.PrintRead | experiments/lift-harness/src/contract.ts:170-173 | and a canonical literal is the only spelling of its number |
| CanonJson.CanonIsPrintOfNormal | experiments/lift-harness/src/contract.ts:203-210 | the canonical text is the plain serialization of the value with its keys sorted at every level |
| CanonJson.ScalarsSpelled | experiments/lift-harness/src/contract.ts:209 | null, true, false and a number are written as JSON writes them |
| CanonJson.ListSpelled | experiments/lift-harness/src/contract.ts:204 | two items are written in their own order between brackets, with one comma |
| CanonJson.ObjectSpelled | experiments/lift-harness/src/contract.ts:205-208 | two members are written in the order of their keys, whichever stands first: brace, key, colon, value, comma, key, colon, value, brace |
| JsonText.UnescapeEscaped | experiments/lift-harness/src/contract.ts:207-209 | reading an escaped string gives the string back, for every sequence of code units, lone surrogates included |
| JsonText.EscapesSpelled | experiments/lift-harness/src/contract.ts:207-209 | the seven short escapes, every other control unit and lone half of a pair in six units, and every other unit as itself |
| JsonText.PrintPrefix | experiments/lift-harness/src/contract.ts:203-210 | two values followed by anything that closes them share a text only if they are one value: no text runs into another's |
| JsonText.PrintInjective | experiments/lift-harness/src/contract.ts:203-210 | serialization is injective |
| CanonJson.AscendingUnique | experiments/lift-harness/src/contract.ts:206 | distinct keys have one sorted order, whatever sort produced it |
| CodeUnits.LessAtFirstDifference | experiments/lift-harness/src/contract.ts:206 | keys are ordered by their first differing code unit, a key before those it begins |
| CanonJson.CanonExact | experiments/lift-harness/src/contract.ts:203-210 | two values without repeated keys share their canonical text if and only if they are equal up to the order of keys |
| Gate.VerdictKeyExact | experiments/lift-harness/src/contract.ts:219-222 | two verdicts share their key if and only if they differ in nothing but a refusal's position |
| Gate.GateExact | experiments/lift-harness/src/gate.ts:163 | a file passes if and only if the two verdict lists agree in length and position by position, positions aside |
| Batching.Chunk | experiments/lift-harness/src/gate.ts:75-84 | the one-pass loop produces the greedy batches |
| Batching.ChunkLossless | experiments/lift-harness/src/gate.ts:75-84 | the batches concatenate to the input, none is empty, and a batch of two or more costs at most the budget |
| Batching.ChunkExactly | experiments/lift-harness/src/gate.ts:75-84 | a split is the one that is answered if and only if it loses nothing, keeps the budget and closes each batch only because the next path would exceed it |
| Batching.ChunkOptimal | experiments/lift-harness/src/gate.ts:75-84 | when every path fits, all batches fit and no order-preserving split within budget uses fewer |
| Mask.MaskSource | experiments/lift-harness/src/sieve.ts:99-130 | the state machine with its look-ahead computes the masked text from any position and state on |
| Mask.MaskIdempotent | experiments/lift-harness/src/sieve.ts:99-130 | masking is idempotent on every source |
| Mask.ShapeKept | experiments/lift-harness/src/sieve.ts:99-130 | masking keeps the length and every newline if and only if no backslash inside a string or template ends the source or stands right before a newline |
| Mask.ShapeLost | experiments/lift-harness/src/sieve.ts:99-130 | a quote, a backslash and a newline are a source that loses its newline |
| Mask.BracketsOfCode | experiments/lift-harness/src/sieve.ts:99-130 | a bracket stands in the masked text exactly where the source has one as code |
| MaskTokens.EverySourceReads | experiments/lift-harness/src/sieve.ts:99-130 | every source is the text of a list of tokens: code units, line and block comments, and strings and templates with their escapes, closed or left open |
| MaskTokens.MaskedByTokens | experiments/lift-harness/src/sieve.ts:99-130 | however a source is read as tokens, masking keeps its code and its delimiters and makes every other unit of a comment, string or template a space, save a newline that nothing escapes |
| Spans.CaptureSpans | experiments/lift-harness/src/rung/Sieve.ts:76-117 | every anchored line is in one of the spans, which are those of maximal runs, with their top score and depth, in ascending order with a line between |
| Spans.SpanMeans | experiments/lift-harness/src/rung/Sieve.ts:89-115 | a span has the greatest score and depth among its lines, the depth of its first, and fired exactly when some line of it scores above the threshold |
| Spans.SpanIsItsLines | experiments/lift-harness/src/rung/Sieve.ts:81-98 | between a span's two offsets the text has exactly its lines, up to the last newline |
| Spans.EveryRunOnce | experiments/lift-harness/src/rung/Sieve.ts:103-115 | every maximal run of anchored lines is exactly one of the spans |
| Spans.SpansDisjoint | experiments/lift-harness/src/rung/Sieve.ts:89-102 | the byte ranges of the spans strictly ascend and never touch |
| Spans.JoinHits | experiments/lift-harness/src/rung/Reader.ts:273-283 | the two-index merge gives each span exactly the hits whose byte lies in its range, both ends included, in order |
| Spans.ReadSpans | experiments/lift-harness/src/rung/Reader.ts:270-283 | the sieve's spans always meet the merge's premise, so the reading's spans hold exactly their hits |
| Hits.RangeSlice | experiments/lift-harness/src/rung/Reader.ts:277-280 | in a sorted list the hits of a byte range are one slice |
| PageReplay.Replay | experiments/lift-harness/src/page.ts:128-167 | the line and byte loops over the stack of intervals compute the state byte by byte of the whole text |
| PageReplay.TakeHits | experiments/lift-harness/src/page.ts:140-144 | the cursor takes all hits of a byte, files them under the line and gives them to the top of the stack |
| PageReplay.TakeBracket | experiments/lift-harness/src/page.ts:145-165 | one character opens an interval, closes the top one and rolls its captures up to its parent, or does nothing when nothing is open |
| BracketReplay.HeldKept | experiments/lift-harness/src/page.ts:128-167 | after every byte each open interval waits at the depth above it and holds every hit since its bracket, and each closed one is final |
| BracketReplay.ReplayExact | experiments/lift-harness/src/page.ts:128-167 | every opening bracket is one interval; it is closed exactly when something closes it by count, on that line, and then holds, in order, exactly the hits after its opening and up to its closing byte, nested ones included |
| BracketReplay.UnclosedExact | experiments/lift-harness/src/page.ts:128-167 | a bracket that nothing closes holds the hits after it up to the next such bracket, or to the end, those of closed intervals between included |
| BracketReplay.FilingExact | experiments/lift-harness/src/page.ts:140-141 | each hit of the text is filed under exactly the line its byte is on, in order |
| BracketReplay.PageAligned | experiments/lift-harness/src/page.ts:112-115 | the masked lines of a page are aligned with the raw ones if and only if masking swallowed no newline and did not lengthen the source |
| Graph.BuildGraph | experiments/lift-harness/src/graph.ts:48-114 | fan-in with multiplicity, sorted local dependencies, sorted roots, and an order that is a greedy acyclic prefix followed by the sorted rest |
| Graph.Emit | experiments/lift-harness/src/graph.ts:78-95 | the loop with its sorted ready list emits, at each step, the least file all of whose importers were emitted, until there is none |
| Graph.ReadyIsZero | experiments/lift-harness/src/graph.ts:78-80 | a file is ready exactly when no import of it is pending, imports counted with multiplicity |
| GraphLaws.ImportsForward | experiments/lift-harness/src/graph.ts:83-95 | between emitted files every import goes forward |
| GraphLaws.OrderIsPermutation | experiments/lift-harness/src/graph.ts:110 | the order is each file exactly once |
| GraphLaws.CyclesExact | experiments/lift-harness/src/graph.ts:96 | the cycles are exactly the files reached, by imports, from a file on an import cycle |
| GraphLaws.OrderUnique | experiments/lift-harness/src/graph.ts:59-113 | the order depends only on the files and who imports whom, not on the order they come in or on repeated imports |
| GraphLaws.OrderLeast | experiments/lift-harness/src/graph.ts:75-95 | among all importers-first orders of the same files it is the lexicographically least |
| SortedTexts.AscendingListUnique | experiments/lift-harness/src/graph.ts:96 | a set of paths has one sorted list |
| Measures.MergeSorted | experiments/lift-harness/src/rung/Algebra.ts:22-34 | the two-index merge computes the union of two lists |
| Measures.UnionIs | experiments/lift-harness/src/rung/Algebra.ts:22-34 | the union of two sorted lists without repetition is one, and holds exactly what either holds |
| Measures.CombineLaws | experiments/lift-harness/src/rung/Algebra.ts:43-79 | the product of the reducers is commutative and associative with its initial value as identity |
| Measures.SplitIsWhole | experiments/lift-harness/src/rung/Algebra.ts:69-79 | combining the parts of the evidence is combining the whole |
| Measures.OrderNeverShows | experiments/lift-harness/src/rung/Algebra.ts:69-79 | evidence in any other order combines to the same reading |
| Measures.TotalsExactly | experiments/lift-harness/src/rung/Algebra.ts:43-79 | of a reading every count is the sum of the evidence's, every list the sorted union of its lists, and the generation is mixed exactly when both kinds of evidence occur, and else the one that does |

## Left out

- TrunkFoldLaws.FoldRefinesWord: the word is fixed; a store that loses receipts and then records different ones at the same positions is not covered, because the carrier is then a cache of two words and the source promises nothing for it.
- WordDrain.DrainFrom: the word may grow while it is drained but is not cut back; marks and bounds are integers, so the refusal of a mark that is not finite is absent.
- TrunkPlace.Place: css lengths and pixel ratios are real numbers and `Math.round` is the floor of x plus a half; the rounding of binary floating point is not modelled.
- BlobWrite.PutBlob: the source stream is a finite list of parts, so a stream that fails of itself is not modelled; the host's own allocation failures are absent too.
- BlobRead.Join: an allocation the host refuses below the declared bound is not modelled.
- CasStore.PutLoads: addresses are opaque values of an arbitrary scheme; nothing is assumed of them, and a node at an occupied address that holds another node is refused as the source refuses it. A resident that fails verification counts as absent.
- CasStore.Put: a put whose receipt cannot be written fails in the source after its node is resident; here every refused put leaves the store as it was.
- LiftPreserves.LiftPreservesMeaning: the free name `hex` is taken to be the helper, which the source flags as unpinned; what the file imports, and which chains denote the effect library's `gen`, is an input. The rest of the file is taken to start and to declare none of these names again. A default of the store parameter is not evaluated, because a store is passed.
- LiftExact.FateDecides: of a declaration that reaches something not modelled nothing is claimed beyond that point; those are listed above under the recognizer.
- Recognizer.LiftDecl: refusals carry their code but not their detail string or position, and the search for candidates in a file, with its import walk and depth limit, is not part of this model.
- CanonJson.CanonExact: numbers are integers; the fields compared by the gate hold no others.
- Graph.BuildGraph: module resolution is an input and the lists of external specifiers are not returned; paths are distinct, as the callers' file lists are.
- Spans.CaptureSpans: whether a line is anchored and how it scores are inputs; tokenizing and the classifier are not part of this model.
- PageReplay.Replay: hits come sorted, and the per-line lists of opening and closing intervals and their entity names, which only drawing uses, are not kept.
- Reference identity: the source keeps untouched columns by reference so that views can memoize; values here have no identity.
- Drawing: the goldens' line format, tints, SVG and the page's text are not part of this model.
- Hosts: the command line, the daemon, the SQL and file backends, locks, telemetry and the parsers themselves are not part of this model.
