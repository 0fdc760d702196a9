# Verified models of g2g's negotiation, collection and analytics cores

A Dafny model of five cores of the g2g media framework, with proofs of what their
documentation and tests promise:

- **Caps**: the description of one link (`Caps`), its partial meet and fixation,
  preference-ordered sets, backward coupling through transforms, the caps string printer
  and parser, conflict reports, frame rates as fractions, and the byte layout of raw frames.
- **Fan-in collection**: `InputAggregator`, which merges or zips the items of several inputs.
- **Drift clock**: the gated sliding window and the recency-weighted line behind `DriftClock`.
- **Stack analysis**: the call-graph search of `tools/footprint.py`.
- **Analytics**: flattening an analytics graph into GStreamer records and rebuilding it.

Code that changes state step by step is modelled by classes and loops (`DepthSearch`,
`InputAggregator`, `Clock`, `ClassNames`, `Writer`, `Reader`, and the methods with loops),
each proved against a function of the old state; the properties are lemmas about those
functions. Code made of matches and recursion is modelled by functions.

| file | models |
|---|---|
| Footprint | the depth search, the indirect-call allowance, the reported depth |
| AggregatorSpec, Aggregator | the collector's steps, the class |
| AggregatorRuns, AggregatorOrder | merging, rounds and conservation over every run; the order of the output |
| LeastSquares, DriftClock | the weighted fit, the clock and facts about every run |
| Caps, CapsSets, CapsTransforms | the algebra, preference-ordered sets, derivation and coupling |
| CapsMeaning, CapsCoupling | which streams a caps describes, and the operations measured against that |
| Options, Integers, Sequences, PairLists, Strings | shared types, lists and string operations |
| CapsPrinter, CapsParser | the printer, the parser |
| CapsNames, CapsScan, CapsValues, CapsLeaves, CapsMovTags, CapsBatches | the round trip, from names and single values to nested batches |
| CapsExpansion, CapsDescriptions | list expansion, and what each kind of description accepts |
| CapsLists, CapsBatchLists | from the text of lists, ranges and batches to exactly the set it stands for |
| CapsSpellings | every text each reader takes for a value, beside the printed one |
| CapsConflicts, FrameRates, PlaneLayout | conflict reports, rates, frame layout |
| AnalyticsGraph, AnalyticsWriter, AnalyticsReader | records, writing, reading |
| AnalyticsBounds, AnalyticsRegions, AnalyticsRoundTrip | what any stream of records becomes, region images and their classes, there and back |

`dafny verify dfyconfig.toml` checks the whole project.

## What the text form loses

`Caps::to_gst_string` is documented as the inverse of `CapsSet::from_gst_string`. The code
meets that for exactly the caps that `CapsBatches.ReadsBack` describes (batches with
delimiters in their tags apart, see below), and the model keeps the code as it is:

- `Interlace::Progressive` prints nothing and reads back as the wildcard.
- MPEG-2, MPEG-4 Part 2 and JPEG XS video, MPEG program streams, closed captions and
  tensors print media types the parser has no entry for.
- MP2 and MP3 read back as AAC, and `IsoBmff` as `Mp4`, whose media types they share.
- A MOV tag is four characters inside the media type; it reads back when they are ASCII, do
  not end in a space, are cut nowhere by the comma splitter and, if fields follow, leave the
  splitter outside quotes and brackets.
- Quotes do not nest. A batch inside a batch reads back only when each of its own streams
  prints no comma, and a batch three deep never does.

Elsewhere code and comment part as follows:

- The stack allowance holds "whatever the register points at" exactly when the entry reaches
  no indirect call or only functions without a frame reach any
  (`Footprint.BoundHoldsExactly`): the search skips functions that themselves call indirectly.
- An analytics relation written as `Contains` from a detection to a classification reads back
  as `Classifies`, and the reverse; a `Tracks` relation from a mask to a classification is
  taken for the record that labels the mask. `AnalyticsRoundTrip.NothingIsLost` gives the
  exact condition for the same relations to come back.
- An input added late can bring an item earlier than one already released.
  `AggregatorOrder.OrderedExactlyWhenTimely` says exactly when the output stays in order.

## Modelling choices

- `f64` and `f32` are `real`; truncation, clamping and rounding to whole pixels are kept.
- `u32` and `u64` widths are explicit where the code checks or wraps them. Sizes of
  collections, the eviction counter, stack depths and the splitter's `i32` depth are
  unbounded.
- Keys given to `take_earliest_by` are integers; an observation of the clock is one atomic
  step.
- A `CapsMismatch` error and every `Option` is the `Option` datatype.
- The parsed call graph, the records handed over by GStreamer and the reference clock's
  readings are parameters.
- Label numbers are unbounded; the reader interns at most one name per counted record, so
  its table stays far below `u32`.

## Model

| member | source | states |
|---|---|---|
| `Footprint.DepthSearch.MaxDepth` | tools/footprint.py:235-249 | the memoised recursion: a depth is the maximum, over all call chains from the function, of the frame sum plus the allowance where the chain ends in an indirect caller, and the graph reachable from it has no cycle; an abort means a cycle is reachable from the root; it terminates, and a depth leaves the path as it was and the memo sound |
| `Footprint.Search` | tools/footprint.py:235-249 | a whole search aborts exactly when a cycle is reachable from the start |
| `Footprint.CycleThroughCallee` | tools/footprint.py:235-249 | a chain that repeats a function passes through a callee from which a cycle is reachable |
| `Footprint.AcyclicFromCallees` | tools/footprint.py:238-246 | callees without cycles, none leading back, make the caller free of cycles |
| `Footprint.MaxCostFromCallees` | tools/footprint.py:242-248 | own frame plus the deepest of the callees and the allowance is the maximum over all chains |
| `Footprint.IndirectBound` | tools/footprint.py:276-279 | the loop in `main`: the allowance is the largest chain cost of the non-entry functions without an indirect call, or an abort exactly when a cycle is reachable from one of them |
| `Footprint.ReportedDepth` | tools/footprint.py:276-280 | allowance and depth in sequence: the result bounds every run of direct and indirect calls from the entry with plain indirect targets, and an abort means exactly that a cycle is reachable from the entry or from a function the allowance covers |
| `Footprint.BoundedRun` | tools/footprint.py:273-280 | the reported depth bounds the frame sum of every run of direct and indirect calls from the entry, when every indirect target is a non-entry function from which no indirect call is reachable |
| `Footprint.BoundHoldsExactly` | tools/footprint.py:273-280 | the depth found under the allowance bounds every run from the entry, whatever the registers point at, if and only if the entry reaches no indirect call or every function that reaches one has an empty frame |
| `Footprint.NothingBoundsALoop` | tools/footprint.py:273-280 | once the entry reaches an indirect call and so does a function with a frame, no depth bounds the runs for all register targets |
| `Footprint.AllowanceMissesIndirectTargets` | tools/footprint.py:273-279 | a concrete graph where the allowance does not hold whatever the register points at |
| `Aggregator.InputAggregator.constructor` | g2g-core/src/aggregator.rs:45-54 | an empty collector for `inputs` inputs |
| `Aggregator.InputAggregator.Push` | g2g-core/src/aggregator.rs:75-88 | appends, then evicts from the front until the queue is within the cap, counting each eviction |
| `Aggregator.InputAggregator.PushLatest` | g2g-core/src/aggregator.rs:95-100 | the queue becomes the one item, with nothing counted |
| `Aggregator.InputAggregator.Clear` | g2g-core/src/aggregator.rs:114-118 | empties one queue and nothing else |
| `Aggregator.InputAggregator.MarkEnded` | g2g-core/src/aggregator.rs:120-122 | ends one input and nothing else |
| `Aggregator.InputAggregator.AddInput` | g2g-core/src/aggregator.rs:68-72 | a further input, empty and open |
| `Aggregator.InputAggregator.Contributors` | g2g-core/src/aggregator.rs:136-142 | the inputs that still contribute, in ascending order, and whether each has an item |
| `Aggregator.PopEach` | g2g-core/src/aggregator.rs:147-158 | one item off each contributor's queue, in input order |
| `Aggregator.InputAggregator.TakeRound` | g2g-core/src/aggregator.rs:147-158 | a round is released exactly when every contributor has an item; it is the row of heads |
| `Aggregator.MinByKey` | g2g-core/src/aggregator.rs:178-190 | the winner has the least key, and among equals the lowest input |
| `Aggregator.InputAggregator.TakeEarliestBy` | g2g-core/src/aggregator.rs:173-192 | releases the earliest head exactly when every contributor has an item |
| `Aggregator.InputAggregator.LatestReady` | g2g-core/src/aggregator.rs:197-199 | ready exactly when every input other than the timing one holds an item |
| `Aggregator.InputAggregator.TakeRoundLatest` | g2g-core/src/aggregator.rs:210-213 | one item off the timing input, the other queues untouched |
| `Aggregator.InputAggregator.IsDrained` | g2g-core/src/aggregator.rs:216-218 | true exactly when every input has ended and every queue is empty |
| `AggregatorSpec.CompleteContributors` | g2g-core/src/aggregator.rs:136-142 | when every contributor has an item, the contributors are the inputs that have one |
| `AggregatorSpec.EarliestIsUnique` | g2g-core/src/aggregator.rs:178-190 | least key, lowest input: at most one input qualifies |
| `AggregatorSpec.StepLeaves` | g2g-core/src/aggregator.rs:68-213 | what one call leaves in every queue, in the flags and in the counter: a push the newest items the depth allows, a latest item that one, a clear none, a release all but the head |
| `AggregatorRuns.MergeOfAnySchedule` | g2g-core/src/aggregator.rs:75-192 | with no eviction and honest ends, every interleaving of push, end and take releases a prefix of the one greedy merge of the whole per-input streams; what is still queued merges to the rest |
| `AggregatorRuns.ReleasesFollowTheMerge` | g2g-core/src/aggregator.rs:75-192 | from an empty collector: a prefix of the merge, and exactly the merge once drained |
| `AggregatorRuns.SameStreamsSameMerge` | g2g-core/src/aggregator.rs:75-192 | two drained schedules of the same streams release the same sequence |
| `AggregatorRuns.RoundsAreRows` | g2g-core/src/aggregator.rs:147-158 | the rounds of queues are their transpose: as many as the longest queue, round k holding item k of exactly the inputs that have one |
| `AggregatorRuns.RoundsOfAnySchedule` | g2g-core/src/aggregator.rs:136-158 | whatever the arrival order, rounds taken followed by rounds still queued are the transpose of the whole streams |
| `AggregatorRuns.RoundIsRow` | g2g-core/src/aggregator.rs:136-158 | the k-th round handed out is row k of the streams |
| `AggregatorRuns.EndedInputsDrain` | g2g-core/src/aggregator.rs:147-218 | once every input has ended, as many rounds are left as the longest queue holds, and taking them drains the collector |
| `AggregatorOrder.OrderedExactlyWhenTimely` | g2g-core/src/aggregator.rs:68-192 | with non-decreasing keys per input, from any state that keeps the invariant and with every call allowed: the released keys never go down, however the run is broken off and ended, if and only if no push has a key below the last released one |
| `AggregatorOrder.LateInputsOrderedExactly` | g2g-core/src/aggregator.rs:45-192 | from an empty collector, with sorted inputs, no push after an end and inputs added at any time: the output stays in order, however the run ends, if and only if no input's first push is below the last released key |
| `AggregatorOrder.LatePushShows` | g2g-core/src/aggregator.rs:75-192 | after a push below the last released key, ending every input and taking once releases a key out of order |
| `AggregatorOrder.OnlyFirstPushesCanBeLate` | g2g-core/src/aggregator.rs:75-192 | with sorted inputs and no push after an end, only an input's first push can be below the last released key |
| `AggregatorOrder.SameInputsAreTimely` | g2g-core/src/aggregator.rs:75-192 | with the inputs fixed from the start no push is ever late |
| `AggregatorOrder.OutputIsOrdered` | g2g-core/src/aggregator.rs:45-192 | with non-decreasing keys per input, no push after its end and no input added, the released keys never go down, evictions, clears, rounds and replaced items included |
| `AggregatorOrder.OrderedFrom` | g2g-core/src/aggregator.rs:68-192 | the invariant behind it, kept by every call without a late push |
| `AggregatorOrder.LateInputBreaksOrder` | g2g-core/src/aggregator.rs:68-72 | a concrete run where an input added late brings an earlier key than one already released |
| `AggregatorRuns.Conservation` | g2g-core/src/aggregator.rs:75-192 | per input and in order, inputs added meanwhile included: queued before plus pushed is left plus queued after, so a queue is a suffix of what it was given; the counter grows by exactly the evictions |
| `DriftClock.IntegerMeans` | g2g-core/src/clock.rs:735-738 | the two integer means |
| `DriftClock.FirstPass` | g2g-core/src/clock.rs:743-753 | the loop's sums are the recency-weighted moments |
| `DriftClock.SecondPass` | g2g-core/src/clock.rs:757-767 | the loop's sums are the weighted second moments about the centroid |
| `DriftClock.ComputeFit` | g2g-core/src/clock.rs:719-779 | the two-pass, centred computation yields the window's fit, whatever the integer means came to |
| `LeastSquares.CentringIsIrrelevant` | g2g-core/src/clock.rs:735-779 | the published line does not depend on which integers the sums were centred on |
| `LeastSquares.WeightsDecay` | g2g-core/src/clock.rs:714-752 | the newest sample weighs one and every other nineteen twentieths of the next newer |
| `LeastSquares.FitIsOptimal` | g2g-core/src/clock.rs:719-779 | no line has a smaller recency-weighted squared error over the window, equal local times included |
| `LeastSquares.LineIsRecovered` | g2g-core/src/clock.rs:719-779 | samples on one line at two different local times give back that line |
| `DriftClock.Clock.constructor` | g2g-core/src/clock.rs:597-634 | an empty window of at least two samples |
| `DriftClock.Clock.ObserveSample` | g2g-core/src/clock.rs:648-673 | fold, reject or restart, and the whole new state |
| `DriftClock.Clock.ProjectNs` | g2g-core/src/clock.rs:695-711 | the identity before the first sample, then the fitted line, clamped at zero and truncated |
| `DriftClock.ObserveMeans` | g2g-core/src/clock.rs:648-673 | with fewer than eight samples an observation is folded; from eight on, one more than the gate above or below the line is rejected, up to seven in a row, and the eighth starts the window over from itself; otherwise it joins the newest of the window |
| `DriftClock.RejectionKeepsTheFit` | g2g-core/src/clock.rs:656-663 | a rejected sample changes neither window nor fit |
| `DriftClock.NoEightRejections` | g2g-core/src/clock.rs:569-663 | in no run are there eight rejections in a row |
| `DriftClock.WindowStaysWithinCapacity` | g2g-core/src/clock.rs:648-673 | in no run does the window outgrow its capacity |
| `DriftClock.RestartIsFollowedByFolds` | g2g-core/src/clock.rs:651-673 | the seven observations after a restart are folded |
| `DriftClock.RestartsAreFar` | g2g-core/src/clock.rs:651-673 | two restarts are at least fifteen observations apart |
| `DriftClock.LineIsReproduced` | g2g-core/src/clock.rs:648-779 | samples on one line with increasing local times are all folded, and from the second on the clock reads that line at every instant |
| `Caps.Commutes` | g2g-core/src/caps.rs:186-309 | intersection is commutative, through nested batches |
| `Caps.Associates` | g2g-core/src/caps.rs:186-309 | intersection is associative with failure absorbing, through nested batches |
| `Caps.Absorbs` | g2g-core/src/caps.rs:186-309 | an overlap lies inside both sides |
| `CapsMeaning.OverlapIsTheMeet` | g2g-core/src/caps.rs:186-309 | an intersection is the one canonical caps that describes exactly the streams both sides describe, field by field and through nested batches |
| `CapsMeaning.OverlapIsShared` | g2g-core/src/caps.rs:186-309 | two caps intersect exactly when some concrete stream is described by both |
| `Caps.FixationIsInside` | g2g-core/src/caps.rs:346-421 | a fixation is fixed and lies inside the caps it came from |
| `Caps.FixedFixatesToItself` | g2g-core/src/caps.rs:313-421 | a caps is fixed exactly when fixation leaves it as it is |
| `Caps.FixatesTowardNearest` | g2g-core/src/caps.rs:425-448 | fixating toward a preference succeeds exactly when fixating does, stays inside the caps, and takes the width, height and frame rate nearest to the preferred ones |
| `CapsMeaning.FixationIsLeast` | g2g-core/src/caps.rs:331-421 | a fixation is exactly the caps with the least allowed width, height and rate, two channels for PCM that names none, and everything else unchanged |
| `CapsMeaning.FixateFailsExactly` | g2g-core/src/caps.rs:331-421 | there is no fixation exactly when a size or rate is open or inverted, or PCM names no sample rate, in some stream |
| `CapsMeaning.FixationTowardIsNearest` | g2g-core/src/caps.rs:425-448 | fixating toward a preference gives exactly the nearest size and rate where the preference names one, the least elsewhere, and counts between videos only |
| `CapsSets.IntersectSets` | g2g-core/src/caps.rs:1950-1962 | the nested loops with keep-first dedup list the distinct overlaps, the left side's preference first |
| `CapsSets.MeetListsOverlaps` | g2g-core/src/caps.rs:1950-1962 | a meet lists exactly the overlaps of the alternatives, each once and in the order of the first pairs that have them, the left side's order first |
| `CapsSets.MeetAssociates` | g2g-core/src/caps.rs:1950-1962 | intersection of sets is associative as an ordered list, preference order and dedup included |
| `CapsSets.MeetIsDistinct` | g2g-core/src/caps.rs:1950-1962 | no overlap is listed twice |
| `CapsSets.SettledIsInside` | g2g-core/src/caps.rs:186-421 | a settled value is fixed and inside both alternatives |
| `CapsSets.NegotiationIsOptimal` | g2g-core/src/caps.rs:1983-1994 | a negotiated result is fixed, accepted by both sides, and the fixation of the first pair in preference order whose overlap fixates; none exactly when no pair's does |
| `CapsTransforms.Derive` | g2g-core/src/caps_transform.rs:142-219 | the loop over shapes lists each shape's output once, in shape order |
| `CapsCoupling.DerivesWhatShapesMake` | g2g-core/src/caps_transform.rs:142-219 | the derived set is exactly what the shapes make of an accepted input, identity fields copied and retargeted ones replaced, each once and in the order of the first shapes that make them |
| `CapsCoupling.VideoPassthroughMeans` | g2g-core/src/caps_transform.rs:221-246 | a video field couples exactly when there are shapes and all of them leave every value of it alone |
| `CapsCoupling.AudioPassthroughMeans` | g2g-core/src/caps_transform.rs:221-246 | the same for audio |
| `CapsCoupling.CouplingNarrows` | g2g-core/src/runtime/passthrough.rs:25-177 | coupling gives exactly the input with every coupled field narrowed to the values the pin allows too and every other field kept, and nothing when a coupled field has no value left |
| `CapsTransforms.CouplingLosesNothing` | g2g-core/src/runtime/passthrough.rs:25-177 | narrowing the input's passthrough fields by a downstream pin, then deriving, gives the same ordered agreements with the pin as deriving from the input as it was |
| `CapsParser.SplitTopCommas` | g2g-core/src/caps_parse.rs:53-73 | the scanner's loop splits where the signed depth is zero outside quotes, and nowhere else |
| `CapsParser.FromGstMask` | g2g-core/src/channels.rs:217-226 | the loop over 64 bits: the speakers of the set bits, or none when a bit names no speaker |
| `CapsParser.BatchAlternatives` | g2g-core/src/caps.rs:586-609 | the loop that multiplies out the streams' alternatives, or none past 256 |
| `CapsScan.SplitCommas` | g2g-core/src/caps_parse.rs:53-73 | text joined by commas from solid parts splits into those parts |
| `CapsScan.ReadFields` | g2g-core/src/caps_parse.rs:247-257 | printed `key=value` parts are read as those fields |
| `CapsValues.DimReads` | g2g-core/src/caps_parse.rs:97-112 | a printed dimension, range or absence reads back as itself alone |
| `CapsValues.RateReads` | g2g-core/src/caps_parse.rs:114-129 | a printed Q16 rate reads back exactly, whole or not |
| `CapsValues.ColorimetryReads` | g2g-core/src/caps.rs:1470-1515 | every colorimetry value reads back, by preset name or four numbers |
| `CapsValues.LayoutReads` | g2g-core/src/channels.rs:208-226 | every channel layout survives the GStreamer mask |
| `CapsValues.MaskReads` | g2g-core/src/caps_parse.rs:194-208 | a printed channel mask reads back as its layout |
| `CapsNames.RawFormatReads` | g2g-core/src/caps.rs:2402-2430 | every pixel format's printed name is read as that format |
| `CapsNames.CodecReads` | g2g-core/src/caps_parse.rs:357-396 | every untagged codec's media type is read as that codec, but for the three that share or lack one |
| `CapsNames.EncodingReads` | g2g-core/src/caps_parse.rs:430-450 | every container's media type is read back, IsoBmff as Mp4 and MpegPs not at all |
| `CapsLeaves.LeafReads` | g2g-core/src/caps.rs:487-577 | what the parser makes of every printed caps that is no batch and carries no container tag: the caps itself, the caps with one field changed, or nothing |
| `CapsLeaves.RiffVideoReads` | g2g-core/src/caps_parse.rs:475-502 | a RIFF video tag reads back from its field |
| `CapsLeaves.RiffAudioReads` | g2g-core/src/caps_parse.rs:475-502 | a RIFF audio tag reads back from its field |
| `CapsMovTags.Utf8IsTag` | g2g-core/src/caps_parse.rs:477-483 | the UTF-8 bytes of a tag cut at a space or comma are the tag's bytes only when nothing was cut and all are ASCII |
| `CapsMovTags.MovReads` | g2g-core/src/caps_parse.rs:475-483 | a caps with a MOV tag reads back if and only if its four characters are ASCII, do not end in a space, are cut nowhere by the scanner and, when fields follow, leave it at the top level |
| `CapsBatches.LeafRoundTrip` | g2g-core/src/caps.rs:487-577 | printing then parsing a caps that is no batch gives exactly the set of that one caps if and only if it is none of the listed exceptions |
| `CapsBatches.SealedBatch` | g2g-core/src/caps_parse.rs:512-524 | a batch whose streams' quoted texts hide their commas reads back if and only if every stream does, whatever delimiters but the quote its own streams' tags hold |
| `CapsBatches.UnsealedFails` | g2g-core/src/caps_parse.rs:512-524 | a batch holding a batch one of whose streams prints a comma does not parse |
| `CapsBatches.RoundTrip` | g2g-core/src/caps_parse.rs:246-524 | printing then parsing gives exactly the set of the printed caps if and only if the text form can hold it, for leaves and for batches of any length and nesting |
| `CapsExpansion.ExpandRaw` | g2g-core/src/caps_parse.rs:337-354 | the four nested loops list every combination of the fields' alternatives |
| `CapsExpansion.ExpandCompressed` | g2g-core/src/caps_parse.rs:269-284 | the three nested loops for compressed video |
| `CapsExpansion.ExpandAudio` | g2g-core/src/caps_parse.rs:294-307 | the three nested loops for audio |
| `CapsExpansion.RawIsLexicographic` | g2g-core/src/caps_parse.rs:337-354 | the list is in lexicographic order, formats first and rates last, and has the product of the lengths |
| `CapsExpansion.CompressedIsLexicographic` | g2g-core/src/caps_parse.rs:269-284 | the same for widths, heights and rates |
| `CapsExpansion.AudioIsLexicographic` | g2g-core/src/caps_parse.rs:294-307 | the same for formats, channel counts and sample rates |
| `CapsDescriptions.RawDescriptionMeans` | g2g-core/src/caps_parse.rs:97-354 | a raw video description parses exactly when each field reads, and then accepts a caps exactly when every field of it overlaps an alternative of that field's list or default |
| `CapsDescriptions.CompressedDescriptionMeans` | g2g-core/src/caps_parse.rs:262-396 | the same for every codec a media type names by itself |
| `CapsDescriptions.ExpandProRes` | g2g-core/src/caps_parse.rs:375-392 | the loop over the listed variants appends each variant's set in turn, or gives nothing when one has none |
| `CapsDescriptions.ProResIsLexicographic` | g2g-core/src/caps_parse.rs:375-392 | variants first, then widths, heights and rates, and the product of the lengths |
| `CapsDescriptions.ProResDescriptionMeans` | g2g-core/src/caps_parse.rs:375-392 | a ProRes description parses exactly when its variants read and, unless it lists none, its fields do; it accepts a caps exactly when the variant is listed and every field overlaps |
| `CapsDescriptions.PcmDescriptionMeans` | g2g-core/src/caps_parse.rs:289-356 | raw audio parses exactly when formats, channels, rates and mask read, and accepts a caps exactly when the format is listed and the other fields overlap |
| `CapsDescriptions.CodedAudioDescriptionMeans` | g2g-core/src/caps_parse.rs:289-410 | the same for every coded audio format a media type names |
| `CapsDescriptions.RiffVideoDescriptionMeans` | g2g-core/src/caps_parse.rs:475-502 | a RIFF video type stands for the tag in its field with its lists, and does not parse without a readable tag |
| `CapsDescriptions.RiffAudioDescriptionMeans` | g2g-core/src/caps_parse.rs:475-502 | a RIFF audio type likewise |
| `CapsDescriptions.MovVideoDescriptionMeans` | g2g-core/src/caps_parse.rs:475-483 | a MOV video type stands for the tag its last four bytes spell, with its lists, and does not parse when they are not four |
| `CapsDescriptions.MovAudioDescriptionMeans` | g2g-core/src/caps_parse.rs:475-483 | a MOV audio type likewise |
| `CapsLists.ListReads` | g2g-core/src/caps_parse.rs:73-95 | a list in braces is read as exactly its items in order, whatever blanks stand around them |
| `CapsLists.RangeReads` | g2g-core/src/caps_parse.rs:73-85 | a range in brackets is read as its first two parts, a step after them ignored |
| `CapsLists.DescriptionReads` | g2g-core/src/caps_parse.rs:246-257 | any description is taken apart into its media type and its fields' values, with blanks around each or without |
| `CapsLists.RawListsParse` | g2g-core/src/caps_parse.rs:97-354 | a raw video description whose fields are absent, single, lists or ranges parses to exactly one caps per combination, in order; without a format it stands for the five formats, with a range of formats for nothing |
| `CapsLists.CodecListsParse` | g2g-core/src/caps_parse.rs:262-396 | the same for every codec a media type names |
| `CapsLists.ProResListsParse` | g2g-core/src/caps_parse.rs:375-392 | the same for ProRes, whose six variants stand in for an absent list |
| `CapsLists.PcmListsParse` | g2g-core/src/caps_parse.rs:289-356 | the same for raw audio, with five sample formats for an absent list; a range of counts or rates does not parse |
| `CapsLists.CodedAudioListsParse` | g2g-core/src/caps_parse.rs:289-410 | the same for coded audio |
| `CapsLists.TextListsParse` | g2g-core/src/caps_parse.rs:411-420 | the same for text |
| `CapsLists.FractionMeans` | g2g-core/src/caps_parse.rs:592-605 | a rate written as a fraction is the greatest Q16 value not above it, and unread when the denominator is zero or that value takes more than 32 bits |
| `CapsSpellings.DecimalSpelled` | g2g-core/src/caps_parse.rs:102-104 | a number is read from its own digits, with one optional plus sign and any leading zeros, and from no other text |
| `CapsSpellings.HexSpelled` | g2g-core/src/caps_parse.rs:203-206 | a hexadecimal number is read from its own digits in either case, and from no other text |
| `CapsSpellings.MaskSpelled` | g2g-core/src/caps_parse.rs:201-206 | a channel mask is hexadecimal after 0x or 0X and decimal otherwise, with its type in front, blanks after that, or without |
| `CapsSpellings.FourNumbersMean` | g2g-core/src/caps.rs:1501-1590 | a colorimetry is read from exactly four numbers between colons, each the one printed for its part, with transfer 13 read as 11 |
| `CapsSpellings.ColorimetrySpelled` | g2g-core/src/caps.rs:1494-1515 | a colorimetry is read from its preset's name in any case, or from its four numbers, and from nothing else |
| `CapsSpellings.RawFormatSpelled` | g2g-core/src/caps_parse.rs:545-575 | a pixel format is read from its printed name in any case and from nothing else, apart from yuyv and p010 |
| `CapsSpellings.PcmSpelled` | g2g-core/src/caps.rs:1643-1647 | a sample format is read from its printed name in any case, blanks around it allowed, and no coded format is |
| `CapsSpellings.CodecSpelled` | g2g-core/src/caps_parse.rs:357-393 | a codec's media type is the printed one and no other, with three more names for the portable anymap |
| `CapsSpellings.ContainerSpelled` | g2g-core/src/caps_parse.rs:430-451 | a container's media type is the printed one, or one of the three names that are only read |
| `CapsSpellings.RiffTagSpelled` | g2g-core/src/caps_parse.rs:492-500 | a RIFF tag is read with its type in front or without |
| `CapsSpellings.BlankPartsSayNothing` | g2g-core/src/caps_parse.rs:246-257 | a blank part between the commas changes nothing, wherever it stands |
| `CapsSpellings.FieldsFailExactly` | g2g-core/src/caps_parse.rs:249-256 | the fields fail to read exactly when some part is neither blank nor has an equals sign |
| `CapsBatchLists.BatchTextParses` | g2g-core/src/caps_parse.rs:512-524 | a batch description stands for the batches made of its streams' descriptions, which all have to parse |
| `CapsBatchLists.BatchesAreChoices` | g2g-core/src/caps.rs:581-609 | the streams multiply out to one batch per choice of alternatives, in lexicographic order, exactly when the choices on the way never exceed 256 |
| `CapsConflicts.DistinctValues` | g2g-core/src/caps.rs:1791-1799 | the values of a field in a set, each once |
| `CapsConflicts.IsInConflict` | g2g-core/src/caps.rs:1802-1815 | the nested loops find a conflict exactly when the field was compared and agreed on no pair |
| `CapsConflicts.OverlapMeans` | g2g-core/src/caps.rs:1719-1790 | a field is compared on two caps that both have it, and agrees exactly when one value of it suits both |
| `CapsConflicts.ValueMeans` | g2g-core/src/caps.rs:1742-1790 | a reported value reads back as the field's value, and there is none exactly when the field is missing or open |
| `CapsConflicts.ConflictingFields` | g2g-core/src/caps.rs:1790-1821 | one entry per conflicting field, in table order, with both sides' values |
| `CapsConflicts.ReportIsExact` | g2g-core/src/caps.rs:1790-1821 | a field is reported exactly when it is in conflict |
| `CapsConflicts.ReportIsSound` | g2g-core/src/caps.rs:1742-1821 | no pair of alternatives that a reported field was compared on intersects |
| `CapsConflicts.ConflictEmptiesTheLink` | g2g-core/src/caps.rs:1742-1821 | a reported media type, or any reported field that all alternatives have, means an empty intersection |
| `CapsConflicts.RawMismatchIsNamed` | g2g-core/src/caps.rs:1742-1821 | two raw video caps are disjoint if and only if a field is reported or they differ in scan structure or colorimetry |
| `CapsConflicts.CompressedMismatchIsNamed` | g2g-core/src/caps.rs:1742-1821 | two compressed caps are disjoint if and only if a field is reported, they differ in colorimetry or alignment, or their codecs differ without the media type telling |
| `CapsConflicts.AudioMismatchIsNamed` | g2g-core/src/caps.rs:1742-1821 | two audio caps are disjoint if and only if a field is reported, they differ in layout, or their formats differ without the media type telling |
| `CapsConflicts.CodecMediaTypes` | g2g-core/src/caps.rs:487-577 | two codecs print under one media type exactly when they are the same, two ProRes variants, the two MPEG codecs, or tags that read alike up to a comma |
| `FrameRates.GreatestCommonDivisor` | g2g-core/src/caps.rs:1022-1027 | Euclid's loop yields a common divisor that every common divisor divides |
| `FrameRates.FramerateToFraction` | g2g-core/src/caps.rs:1007-1015 | the fraction has the rate's value, is in lowest terms, and makes the rate again |
| `PlaneLayout.StrideIsExact` | g2g-core/src/caps.rs:2616-2648 | a stride is the block table's, or none exactly when that does not fit 32 bits |
| `PlaneLayout.PlaneIsExact` | g2g-core/src/caps.rs:2668-2672 | a plane's size is defined exactly when its stride is |
| `PlaneLayout.PlaneOffset` | g2g-core/src/caps.rs:2676-2685 | a plane starts at the exact total of the planes before it |
| `PlaneLayout.UnpaddedFrameBytes` | g2g-core/src/caps.rs:2691-2697 | the exact integer total of the planes, none exactly when a stride or the total overflows |
| `PlaneLayout.AlignedFrameIsNominal` | g2g-core/src/caps.rs:2564-2697 | a frame of whole blocks has the format's bits per pixel |
| `PlaneLayout.RowsAreDisjoint` | g2g-core/src/caps.rs:2616-2697 | no two rows of any planes share a byte |
| `PlaneLayout.RowsCoverTheFrame` | g2g-core/src/caps.rs:2616-2697 | a byte is in some row exactly when it is in the frame |
| `PlaneLayout.PixelHasItsBlock` | g2g-core/src/caps.rs:2616-2666 | every pixel's block lies whole inside a row of every plane |
| `PlaneLayout.RowStrideIsNarrowest` | g2g-core/src/caps.rs:2507-2530 | the common stride is the narrowest that every plane fits, and defined exactly for the single-stride formats where it takes 32 bits |
| `PlaneLayout.FrameBytesMean` | g2g-core/src/caps.rs:2532-2557 | a frame at a given stride is its rows times the stride, and defined exactly for the single-stride formats where that takes 64 bits |
| `PlaneLayout.PaddedFrameHoldsFrame` | g2g-core/src/caps.rs:2514-2557 | a single-stride frame is never smaller than the unpadded one, and equal exactly for packed formats, even widths and empty frames |
| `AnalyticsGraph.ClassNames.Intern` | g2g-bridge/src/analytics.rs:150-158 | a name's label: the first use's place, or the end of the grown table |
| `AnalyticsWriter.Writer.Plan` | g2g-bridge/src/analytics.rs:404-423 | forgets the previous graph and writes this one |
| `AnalyticsWriter.Writer.Fill` | g2g-bridge/src/analytics.rs:425-480 | the records of every node in order and of every relation, with dropped nodes' relations left out |
| `AnalyticsWriter.Writer.AddSegmentation` | g2g-bridge/src/analytics.rs:501-543 | a mask becomes a region image, a classification and the record that joins them, or nothing when it is empty or too wide |
| `AnalyticsWriter.RegionImage` | g2g-bridge/src/analytics.rs:507-514 | the image, row by row, thresholded at 128 |
| `AnalyticsReader.Reader.Read` | g2g-bridge/src/analytics.rs:182-235 | one record read within the budgets, and the whole new state |
| `AnalyticsReader.Reader.ReadRegions` | g2g-bridge/src/analytics.rs:244-290 | one mask per region when geometry and budgets allow it, charged to the budget |
| `AnalyticsReader.Reader.Relate` | g2g-bridge/src/analytics.rs:237-241 | appended while the budget lasts |
| `AnalyticsReader.Reader.Finish` | g2g-bridge/src/analytics.rs:292-391 | the graph of everything read, or none without a node |
| `AnalyticsReader.ReadStaysBounded` | g2g-bridge/src/analytics.rs:182-290 | no record takes the reader past its budgets |
| `AnalyticsReader.WirePairs` | g2g-bridge/src/analytics.rs:377-383 | every pair of nodes, up to the relation budget |
| `AnalyticsBounds.AnyStreamIsSound` | g2g-bridge/src/analytics.rs:182-391 | whatever records and relations arrive in whatever order, the graph made of them has 1 to 4096 nodes, at most 16384 relations, each between two of those nodes, at most 64 MiB of whole masks, and a name for every class, each name once |
| `AnalyticsBounds.ReadStaysHonest` | g2g-bridge/src/analytics.rs:182-290 | every record is counted against the budgets for exactly the nodes and mask bytes it leaves behind |
| `AnalyticsBounds.ChargeIsExact` | g2g-bridge/src/analytics.rs:244-290 | a region image is charged exactly the bytes of its masks, and every mask is whole |
| `AnalyticsRegions.LastKindStands` | g2g-bridge/src/analytics.rs:300-301 | a number has the kind of the last record that bears it, and none without one |
| `AnalyticsRegions.TableHoldsItsClasses` | g2g-bridge/src/analytics.rs:313-318 | a table's labels are the classes of all classification records with its number, in the order read |
| `AnalyticsRegions.RegionsRead` | g2g-bridge/src/analytics.rs:244-290 | a region image of one- or two-byte samples is read exactly when its geometry and the budgets allow, and becomes one mask per region that covers exactly the pixels of that number |
| `AnalyticsRegions.RegionsAdded` | g2g-bridge/src/analytics.rs:336-352 | the regions of a record become nodes in order, each under the class at its position, or under the empty name and an undefined confidence |
| `AnalyticsRegions.RegionsNumbered` | g2g-bridge/src/analytics.rs:336-352 | the nodes of a record's regions all stand for the record, in order |
| `AnalyticsRoundTrip.MaskThresholds` | g2g-bridge/src/analytics.rs:244-290 | a mask written and read is the same grid with every sample thresholded |
| `AnalyticsRoundTrip.EveryRead` | g2g-bridge/src/analytics.rs:182-235 | within the budgets every written record is read, in order, under its name |
| `AnalyticsRoundTrip.AllTables` | g2g-bridge/src/analytics.rs:299-318 | each mask is named by the last track from it to a classification, or else by the record the writer put after its own, and nothing else is named |
| `AnalyticsRoundTrip.RoundTrip` | g2g-bridge/src/analytics.rs:182-563 | a graph within the budgets comes back with its recorded nodes in order, under the same names, masks thresholded, boxes on whole pixels, and the relations among them; a track from a mask to a classification is lost and gives the mask that class, its own class following as a node and the classification gone |
| `AnalyticsRoundTrip.NothingComesBack` | g2g-bridge/src/analytics.rs:182-563 | nothing comes back exactly when no node is of a mapped kind with pixels |
| `AnalyticsRoundTrip.RelationsLost` | g2g-bridge/src/analytics.rs:292-383 | no more relations come back than there were, and one fewer for every track from a mask to a classification |
| `AnalyticsRoundTrip.NothingIsLost` | g2g-bridge/src/analytics.rs:182-563 | a graph all of whose nodes have records comes back with the same relation list if and only if each relation keeps its kind, and then with every node in its place |
| `AnalyticsRoundTrip.NothingInNoFrame` | g2g-bridge/src/analytics.rs:182-190 | nothing comes back from a frame without pixels |
| `AnalyticsRoundTrip.WholePixelsSurvive` | g2g-bridge/src/analytics.rs:426-436 | a coordinate on a whole pixel comes back as it was |
| `AnalyticsRoundTrip.PixelsMean` | g2g-bridge/src/analytics.rs:426-436 | a coordinate is written as the nearest whole pixel, halves away from zero, clamped to 32 bits |
| `AnalyticsRoundTrip.HalfAPixel` | g2g-bridge/src/analytics.rs:182-200 | a coordinate comes back within half a pixel |

## Left out

- CapsBatches.RoundTrip: of caps that are no batch it covers all; of batches, those whose MOV tags hold no quote where they are printed inside quotes, and no delimiter where the nesting of quotes leaves them open. A tag outside those can change which quotes pair up across streams.
- AnalyticsRoundTrip.RoundTrip: assumes the graph fits the reader's budgets.
- AggregatorRuns.MergeOfAnySchedule: runs of push, end and take, which are all the calls that have one merge to follow; a latest-wins release, a clear or an eviction removes items from the streams, rounds are covered by AggregatorRuns.RoundsOfAnySchedule and inputs added late by AggregatorOrder.LateInputsOrderedExactly.
- The graph solver beyond one link and the coupling of one transform, the runner, channels and the leaky-link policy.
- Floating-point rounding in the drift fit and in box coordinates.
- Spin locks, atomics, tickers and sleeping around `DriftClock`; clock election, play and capture anchors.
- Disassembly parsing, register tracking and tool invocation in `tools/footprint.py`; `sys.exit` is an outcome value.
- Raw pointers, C strings and the GStreamer shell around the analytics records, which is assumed to hand records over in the order written.
- Regions of interest, poses and oriented detections are one node kind without a record.
- Default channel layouts, `ChannelLayout::index_of` and `from_mask`, CICP code points, frame periods and `CapsSet::union`: single lookups or folds.
