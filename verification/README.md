# QZT in Dafny

A verification project for QZT, a chunked text container with line indexes, a
deterministic CBOR metadata layer, and a searchable inverted index (QZI). It
models the container's most involved logic and proves what that logic is for:
search results equal to a plain scan of the text, exact resource accounting,
codecs that are exact inverses, and reads that return exactly the original
bytes.

`dafny verify dfyconfig.toml` checks everything. Automatic induction is switched
off on every lemma: each is proved by its body.

## How it is organised

- `Bytes`, `Digits`, `Lines`, `Utf8`, `Varint`, `LittleEndian`, `KeySets`:
  vocabulary. A line is an LF-terminated piece of the text, the last one
  possibly without LF.
- `ChunkTable`, `Chunker`, `DenseIndex`, `ChunkCache`, `LineReads`,
  `DeepVerify`, `DocumentHash`: planning chunks, reading through them, and
  verifying them against the text.
- `Tokens`, `TokenMatch`, `TokenMeaning`, `Ngrams`, `Postings`,
  `PostingStream`, `LineIndex`, `IndexParts`, `Verification`, `Search`,
  `SearchExact`, `SearchTrace`, `SearchOutcome`, `SearchEndToEnd`: building the
  index, planning a query, verifying candidates, and what the reported hits
  mean.
- `Delta`, `SidecarGranules`, `SidecarTerms`, `SidecarPostings`,
  `SidecarSections`: the sections of a sidecar file.
- `Cbor`, `CborCanon`, `CborParser`, `CborCodec`, `Schema`, `Footer`: the
  metadata layer (sections 3 and 4.2.1 of RFC 8949; UTF-8 as in section 4 of
  RFC 3629).
- `ContextWindow`, `PhysicalRanges`: context excerpts and physical layout.
- `TokenCase`, `Utf8Scalars`, `NgramScalars`, `PlanOrdering`, `PostingWork`,
  `BuildTotals`, `ChunkSums`, `VarintLayout`, `SidecarLayout`, `CborLayout`,
  `MetadataFields`: the vocabulary and the file formats stated a second time,
  independently of the definitions the code is proved against. Letters and
  their cases, scalar values, counts and sums, digits and byte positions, keys
  and their values.

## Main results

- Building the index and searching it, with tokens or n-grams, reports exactly
  what a plain scan of the text finds, in text order
  (`SearchEndToEnd.TokenSearchText`, `SearchEndToEnd.NgramSearchText`, from
  `SearchExact.TokenSearchIsExact`, `SearchExact.NgramSearchIsExact` and
  `SearchExact.HitsInTextOrder`).
- Hits are sound whatever the index claims, clipped and multi-line granules
  included (`SearchExact.TokenHitsAreSound`).
- Limits only ever cut a suffix of the hits, no run exceeds one, and the
  limits under which nothing is cut are known exactly
  (`SearchExact.LowerLimitsGivePrefix`, `SearchExact.SearchStaysWithinLimits`,
  `SearchExact.UnstoppedExactly`). The reads of a run are a list fixed by the
  text; its counters add up the reads made, and its stop reason names the limit
  that its hits reach or its next read would pass first
  (`SearchTrace.RunOutcome`, `SearchOutcome.SearchStops`).
- The streaming builder succeeds exactly when the limits hold of the whole
  text, and its result does not depend on the chunking
  (`LineIndex.BuildLineIndexStreaming`, `SearchExact.IndexIndependentOfChunks`).
- The CBOR parser accepts exactly the encodings of values whose measured
  charges fit, and returns the value (`CborCodec.AcceptedIsEncoding`,
  `CborCodec.EncodingIsAccepted`); encodings are those of RFC 8949 byte by byte
  (`CborLayout.EncodingLayout`), and what is written under a key is read back
  under it (`MetadataFields.FooterReadsBack`, `MetadataFields.IndexReadsBack`).
- Deep verification passes exactly on tables with the line structure of the
  text and document records that agree with it, in one pass over the chunks,
  and every planned table passes (`DeepVerify.VerifyDeep`,
  `DeepVerify.PlannedTablePasses`).
- A line read returns exactly that line, with or without the dense index
  (`LineReads.ReadLine`); a single pass over the chunks hashes exactly each
  document's bytes (`DocumentHash.HashDocuments`).

## One property that does not hold

The identifier preflight is meant never to reject what the full writer check
accepts. It charges every document for the six-byte name `blake3`, so it can
reject documents with shorter algorithm names: under any limits with room for
one document, the default ones included, some document passes the full check
and fails the preflight (`Schema.PreflightCounterexample`).
`Schema.PreflightNeverRejects` gives the exact condition: the algorithm names
together have at least six bytes per document.

## Modelling choices

- `usize` is 64-bit, integers are unbounded with every overflow check written
  out, bit operations are arithmetic.
- Success and failure are distinguished, and so are the caps that stop a
  search; the names of errors are not. Allocation failure is not modelled.
- BLAKE3 is an arbitrary function of the bytes fed to it. Decompressing a chunk
  gives its slice of the text; per-chunk checksums are therefore not modelled.
- Ordered maps and sets are maps and strictly ascending sequences. Sorting a
  vector is insertion sort; where the source sorts unstably the result proved
  does not depend on the order of ties.
- Objects the source updates in place are classes (`ChunkDecodeCache`,
  `LineMatchScratch`, `BuildMeter`, `StreamingTextAnalysis`, `DocumentHasher`,
  `Parser`); their methods are proved against functions of the old state.

## Model

| member | source | states |
|---|---|---|
| `Varint.WriteVaruint` | src/dense_line_index.rs:244-250 | appends the minimal encoding of the value |
| `Varint.WriteVaruintSidecar` | src/sidecar.rs:1780-1792 | the sidecar's own writer produces the same bytes |
| `Varint.VaruintLen` | src/dense_line_index.rs:213-220 | the size function is the real encoded length |
| `Varint.ParseIffWritten` | src/dense_line_index.rs:252-281 | a varint is accepted with a value exactly when the bytes at the cursor are that value's minimal encoding |
| `Varint.ReadDense` | src/dense_line_index.rs:252-281 | the dense-index reader accepts exactly the minimal encodings |
| `Varint.ReadSearch` | src/search.rs:2278-2304 | the search reader accepts the same byte strings with the same values, wrapping shift included |
| `Varint.ReadSidecar` | src/sidecar.rs:1803-1827 | the sidecar reader accepts the same byte strings with the same values |
| `VarintLayout.WriteLayout` | src/dense_line_index.rs:244-250 | a varint is the value's base-128 digits, least significant first, with a continuation bit on all but the last, and no shorter spelling exists |
| `VarintLayout.ListLayout` | src/search.rs:1154-1172 | a posting list is stored as the varints of its first value and of each value less the one before |
| `VarintLayout.IndexLayout` | src/dense_line_index.rs:73-93 | the dense index is the varints of the entry count and, per entry, chunk id, number of offsets and the offsets' differences |
| `Delta.Encode` | src/search.rs:1154-1172 | succeeds exactly on strictly increasing lists and writes their differences |
| `Delta.EncodedSize` | src/search.rs:1174-1187 | the size without encoding is the length of the encoding |
| `Delta.Decode` | src/search.rs:1201-1233 | decodes under a value budget exactly the lists characterised by the lemma below |
| `Delta.DecodeIffEncoded` | src/search.rs:1154-1233 | decoding yields a list exactly when the list is increasing, fits the budget, and the bytes are its encoding |
| `Delta.EncodedInjective` | src/search.rs:1154-1172 | different lists have different encodings |
| `Delta.BuildSkipPoints` | src/search.rs:1538-1572 | every 128th entry of a long list, each with its value and the encoded length of everything before it |
| `Delta.SeekResumes` | src/search.rs:1538-1572 | decoding from a skip point's byte offset yields the rest of the list |
| `DenseIndex.Encode` | src/dense_line_index.rs:73-93 | succeeds exactly on nondecreasing offsets and writes the index bytes |
| `DenseIndex.EncodedSize` | src/dense_line_index.rs:30-47 | the predicted size is the length of the encoding |
| `DenseIndex.DecodeIffEncodedDense` | src/dense_line_index.rs:103-183 | decoding for a table yields an index exactly when it matches the table and the bytes are its encoding |
| `DenseIndex.DecodeForChunks` | src/dense_line_index.rs:103-183 | succeeds as the reference decoder does, exactly within the predicted allocation |
| `DenseIndex.RequestedAllocationForChunks` | src/dense_line_index.rs:20-28 | predicts the allocation the decoder will request |
| `DenseIndex.FromOriginalBytes` | src/dense_line_index.rs:49-71 | holds each chunk's own line starts, and exists exactly when the line counts agree |
| `Lines.LinesTile` | src/reader.rs:1224-1232 | lines tile the text, each from a line start to its line end |
| `Lines.LineStartsAgree` | src/chunker.rs:205-239 | the starts of the lines are exactly the line starts |
| `Lines.JoinedLines` | src/reader.rs:975-1018 | all lines concatenated give back the text |
| `Lines.LocalLineStarts` | src/reader.rs:1209-1222 | line starts of a decoded chunk given its continuation flag |
| `Lines.LocalStartsShift` | src/dense_line_index.rs:228-241 | with the right flag a chunk seen alone has the text's line starts, shifted |
| `ChunkTable.PartitionByEnd` | src/chunk_table.rs:66-82 | on sorted ends the result is the partition point |
| `ChunkTable.ChunkIndexForOffset` | src/chunk_table.rs:84-91 | finds the number of chunks that end at or before the offset |
| `ChunkTable.ChunkAtContains` | src/chunk_table.rs:84-91 | in an accepted table that is the one chunk containing the offset |
| `ChunkTable.ChunkSpanForRange` | src/search.rs:1438-1451 | the chunk span of a nonempty range |
| `ChunkTable.SpanIsIntersection` | src/search.rs:1438-1451 | a chunk is in the span exactly when it intersects the range |
| `ChunkTable.ValidateChunkTable` | src/chunk_table.rs:94-175 | accepts exactly the tables that tile the text with nonempty chunks and chain their line counts |
| `ChunkSums.AcceptedIs` | src/chunk_table.rs:94-175 | accepted exactly when ids are positions, offsets and first lines are running sums, sizes and flags are possible, and the sums are the announced totals |
| `Chunker.PlanChunks` | src/chunker.rs:82-132 | planning succeeds exactly on valid options and UTF-8 text for which at most the entry limit of cuts exist, and then tiles the text with bounded, UTF-8-valid chunks that split no CRLF and carry the text's line structure; the newline mode is Lf, Crlf, Mixed or none exactly as LFs without and with a CR in front occur |
| `Chunker.CutsAlwaysExist` | src/chunker.rs:134-194 | with a maximum of at least four bytes a cut is always found |
| `Chunker.ThreeBytesNotEnough` | src/chunker.rs:134-182 | three bytes are not enough |
| `Chunker.ChosenCutIsSafe` | src/chunker.rs:134-194 | a chosen cut makes progress, respects the maximum, and splits neither a scalar nor CRLF |
| `Chunker.CutPreference` | src/chunker.rs:134-164 | the cut is the end if the rest fits the target, else after the last line break within the target, else within the maximum, else the largest safe cut |
| `Chunker.LastLineBoundary` | src/chunker.rs:166-176 | just past the last LF of the range |
| `Chunker.ChooseChunkEnd` | src/chunker.rs:134-164 | the last line break before the target, else before the maximum, else the last safe cut |
| `Chunker.LineInfoFromBytes` | src/chunker.rs:205-239 | all line starts, and the newline mode by which LFs occur, without or with a CR in front |
| `Chunker.FlagsDecideMode` | src/chunker.rs:61-70 | the two flags give exactly the mode that the LFs of the text have |
| `Chunker.SafeCutIs` | src/chunker.rs:178-194 | inside the text a cut is safe exactly in front of no continuation byte and not between CR and LF |
| `Utf8Scalars.ScalarLenIs` | src/chunker.rs:184-190 | what counts as one scalar is exactly the encoding of a scalar value, surrogates and overlong forms excluded |
| `Utf8Scalars.ValidIff` | src/chunker.rs:82-86 | valid text is exactly an encoded sequence of scalar values |
| `Chunker.LowerBoundCounts` | src/chunker.rs:86-132 | looking a cut up among the line starts counts the starts before it |
| `ChunkCache.TouchSpanCost` | src/reader.rs:825-849 | decoding a span charges each chunk once, except a first chunk already cached |
| `ChunkCache.PreflightExact` | src/reader.rs:794-823 | the pre-check passes exactly when the read stays within both limits |
| `ChunkCache.PreflightMonotone` | src/reader.rs:794-823 | larger limits never make a passing pre-check fail |
| `ChunkCache.ChunkDecodeCache.SearchLimitForSpan` | src/reader.rs:794-823 | computes the verdict from the cache's counters and changes nothing |
| `ChunkCache.ChunkDecodeCache.DecodedEntry` | src/reader.rs:825-849 | a hit is free; a miss decodes and charges the whole chunk |
| `ChunkCache.ReadRangeCached` | src/reader.rs:935-973 | from any consistent cache a range read returns exactly the original slice, at exactly its cost, and leaves the cache consistent |
| `ChunkCache.RangeChunks` | src/reader.rs:935-973 | the chunks of a range start at the one holding its first byte and end at the one holding its last |
| `LineReads.LineStartChunkIndex` | src/reader.rs:1195-1207 | finds the chunk a line starts in, or fails exactly past the last line |
| `LineReads.LineStartIs` | src/reader.rs:989-1000 | a line's local start, shifted by its chunk, is where the line starts in the text |
| `LineReads.AppendUntilLf` | src/reader.rs:1224-1232 | copies up to and including the next LF, or everything |
| `LineReads.ReadLine` | src/reader.rs:975-1018 | returns exactly the bytes of the line, with the dense index or without it, and fails exactly past the last line |
| `DeepVerify.StreamingTextAnalysis.Update` | src/reader.rs:1163-1188 | after a chunk the analysis describes the text up to the chunk's end |
| `DeepVerify.VerifyChunk` | src/reader.rs:1030-1054 | the checks on one chunk pass exactly when its record, its UTF-8 and its dense entry agree with the text |
| `DeepVerify.VerifyDeep` | src/reader.rs:1020-1091 | one pass over the chunks; passes exactly when flags, first lines, line counts and checksum are those of the text, the mode says which LFs occur, and every document record agrees with the text |
| `DeepVerify.PlannedTablePasses` | src/chunker.rs:86-132 | a table that records a plan always passes |
| `DeepVerify.DescribedBuildsDense` | src/dense_line_index.rs:49-71 | on such a table the dense index can be built and matches |
| `DocumentHash.PendingSorted` | src/reader.rs:1338-1357 | pending documents are ordered by start, each index once |
| `DocumentHash.DocumentHasher.Feed` | src/reader.rs:1359-1400 | after a chunk exactly the documents that end in it or before are recorded, the others hold their bytes so far |
| `DocumentHash.HashDocuments` | src/reader.rs:1337-1405 | each in-range nonempty document is recorded under its index with exactly its byte range, in any order and with any overlaps |
| `DocumentHash.DocumentChunkRange` | src/reader.rs:1287-1309 | the chunks a document's bytes lie in |
| `DocumentHash.VerifyDocuments` | src/reader.rs:1234-1281 | passes exactly when every record's identifier hash, ranges, checksum and chunk span are right for the text |
| `Tokens.NextRun` | src/search.rs:1408-1415 | finds the next maximal run of token bytes |
| `Tokens.RunsSound` | src/search.rs:1925-1961 | the scan yields tokens only, in text order |
| `Tokens.RunsComplete` | src/search.rs:1925-1961 | the scan misses no token |
| `Tokens.TokenKeysExact` | src/search.rs:1406-1420 | the keys of a text are exactly the folded tokens it holds |
| `Tokens.UniqueQueryKeys` | src/search.rs:1992-2019 | the distinct folded tokens of the query, failing exactly when over a query limit |
| `TokenCase.TokenBytes` | src/search.rs:2048-2050 | ASCII letters and digits, underscore and hyphen |
| `TokenCase.FoldedIff` | src/search.rs:1925-1961 | folding identifies exactly byte strings that agree up to the case of ASCII letters |
| `TokenCase.FoldedIsLower` | src/search.rs:1259-1263 | the folded form is the one case variant without capitals |
| `TokenCase.TokenKeysAreLower` | src/search.rs:1405-1420 | the keys of a line are the lower-case spellings of its tokens |
| `TokenCase.QueryKeysExact` | src/search.rs:1992-2019 | the query's keys are its distinct spellings in byte order, refused exactly beyond a query limit |
| `TokenCase.PlainHitIff` | src/search.rs:1881-1961 | matching by keys is matching by the query's own tokens, letter by letter |
| `Bytes.LessIs` | src/search.rs:1603-1607 | key order is decided at the first difference, a proper prefix being smaller |
| `KeySets.InsertExact` | src/search.rs:2006-2015 | insertion keeps an ordered set, adding exactly the key |
| `KeySets.IndexForKey` | src/search.rs:400-404 | binary search finds a key of an ascending dictionary if it is there |
| `TokenMatch.VerifiedLineSpans` | src/search.rs:1925-1961 | whether the line holds every key, and its first matches up to the limit |
| `TokenMatch.LineMatchScratch.NextLine` | src/search.rs:1898-1903 | a new line starts with no key marked, also when the generation counter wraps |
| `TokenMatch.VerifiedSpans` | src/search.rs:1881-1923 | the limited scan of a granule is a prefix of the full one |
| `TokenMeaning.LineMatchesSound` | src/search.rs:1925-1961 | a match is a token of the line, not cut off, equal to its key, in order |
| `TokenMeaning.LineMatchesComplete` | src/search.rs:1925-1961 | every such token is matched |
| `TokenMeaning.GranuleSpanIsHit` | src/search.rs:1881-1961 | for any granule, a verified span is a token of the text on an original line holding every query key |
| `TokenMeaning.LineGranuleComplete` | src/search.rs:1881-1961 | for a whole-line granule, every plain-scan hit on the line is among its spans |
| `Ngrams.OccursAtBoundary` | src/search.rs:1421-1431 | valid UTF-8 can only occur at a scalar boundary |
| `Ngrams.OccurrenceHasKeys` | src/search.rs:1421-1431 | a line that contains the query holds all of the query's n-grams |
| `Ngrams.NgramKeysForQuery` | src/search.rs:2021-2046 | the distinct scalar n-grams of the query, failing exactly when over a query limit or for n = 0 |
| `Ngrams.KeysIffLongEnough` | src/search.rs:2031-2034 | a query has keys exactly when it has at least n scalars |
| `NgramScalars.NgramKeysAre` | src/search.rs:1421-1431 | the keys of a text are, in order, its stretches of n consecutive scalar values |
| `Ngrams.OccurrencesExact` | src/search.rs:1963-1983 | exactly the positions where the query occurs, overlapping ones included, ascending |
| `Ngrams.SubstringSpans` | src/search.rs:1963-1983 | the first occurrences up to the limit |
| `Postings.CommonExact` | src/search.rs:1826-1845 | of increasing lists the merge is the intersection, increasing |
| `Postings.IntersectTwoSorted` | src/search.rs:1826-1845 | merges within the work budget, failing exactly when the work exceeds it |
| `Postings.IntersectionExact` | src/search.rs:1806-1824 | the result holds exactly the ids in every list |
| `Postings.MergeAllWorkBound` | src/search.rs:1806-1853 | each merge costs at most the lengths it touches |
| `Postings.IntersectPostings` | src/search.rs:1806-1824 | the intersection, or an error exactly when its work exceeds the budget |
| `PostingWork.MergeWorkIs` | src/search.rs:1826-1853 | a merge costs one unit for every id up to the end of the list that ends first, and one more for every id in both |
| `PostingWork.IntersectionWorkIs` | src/search.rs:1806-1824 | the first list costs its length, each further one its merge with what is left |
| `Postings.CountChunkSpans` | src/search.rs:1779-1804 | the number of distinct chunks covered by the spans; it never overflows |
| `PostingStream.PostingsExact` | src/search.rs:1253-1276 | a posting list holds exactly the lines where its key occurs, strictly increasing |
| `PostingStream.DictionaryExact` | src/search.rs:1253-1276 | the dictionary holds exactly the keys met, ascending |
| `PostingStream.MeterConserved` | src/search.rs:1244-1277 | the posting meter is the number of ids stored in the map |
| `PostingStream.WithinShrinks` | src/search.rs:89-96 | a stream over a build limit stays over it however it continues |
| `PostingStream.BuildMeter.AddKey` | src/search.rs:1253-1276 | adds one pair, failing exactly when a limit is then exceeded; counters, dictionary and lists stay those of the stream |
| `BuildTotals.PostingCountIs` | src/search.rs:1244-1277 | the posting meter counts the distinct pairs of a line and a key on it |
| `BuildTotals.BuildableIs` | src/search.rs:1282-1377 | whether the limits hold of a text, as counts of its lines, its distinct keys, their bytes and the pairs of a line and a key on it |
| `LineIndex.StreamExact` | src/search.rs:1405-1434 | a key is paired with a line exactly when the line has it; lines come in order |
| `LineIndex.EmitLineGranule` | src/search.rs:1379-1434 | records one line, or fails because the text breaks a limit |
| `LineIndex.CloseLine` | src/search.rs:1303-1334 | an LF ends the open line, carried bytes included |
| `LineIndex.HoldRest` | src/search.rs:1335-1344 | the rest of a chunk joins the carry buffer, within the line limit |
| `LineIndex.BuildLineIndexStreaming` | src/search.rs:1282-1377 | succeeds exactly when every chunk is UTF-8 and all limits hold of the whole text, and yields the index of the text |
| `LineIndex.ChunksValidText` | src/search.rs:1296-1300 | chunks that are all UTF-8 make a UTF-8 text |
| `SearchExact.IndexIndependentOfChunks` | src/search.rs:1279-1377 | two chunk tables of one text give the same line ranges, dictionary and posting lists |
| `IndexParts.CheckParts` | src/search.rs:99-113 | decides the limits on materialized parts |
| `IndexParts.BuiltPartsAccepted` | src/search.rs:98-114 | what the meter admitted passes the check on the finished parts |
| `IndexParts.ValidateGranules` | src/search.rs:1574-1595 | consecutive ids, ranges inside the source, ordered offsets |
| `IndexParts.ValidateTermDictionaryShape` | src/search.rs:1597-1625 | comparing neighbours decides strict order of terms and lists; a nonzero term flag is refused |
| `IndexParts.EncodePostingLists` | src/search.rs:1483-1536 | each term's offsets are the sums of the sizes before it; succeeds exactly within the size limit |
| `IndexParts.FromParts` | src/search.rs:549-574 | accepts exactly the parts that pass every check, and yields a well-formed index of them |
| `IndexParts.BuiltPartsFit` | src/search.rs:1282-1377 | the builder's output passes every check but the encoded-size limit |
| `IndexParts.BuildIndex` | src/search.rs:508-537 | yields the index of the text, and fails exactly on invalid UTF-8 or a limit the text breaks, the encoded size included |
| `Verification.ValidateGranuleChunkSpan` | src/search.rs:1454-1476 | accepts exactly the granules that are nonempty ranges of the text and name the chunks they intersect |
| `Verification.VerifyCandidate` | src/search.rs:1662-1750 | one candidate: the charged reads, the boundary byte, the matches |
| `Verification.VerifyCandidates` | src/search.rs:1645-1757 | carries out the run over the candidates |
| `Verification.CappedRunIsPrefix` | src/search.rs:1645-1757 | a run stays within its limits, returns a prefix of all hits, and without a stop reason all of them |
| `Verification.RaisingLimitsKeepsHits` | src/search.rs:1645-1757 | raising limits never loses a hit nor turns success into failure of the smaller run |
| `Verification.RoomyRunIsUncapped` | src/search.rs:1645-1757 | limits with room for two whole reads per candidate are never reached |
| `Verification.UnstoppedIffSuffices` | src/search.rs:1645-1757 | of two runs, the one with lower limits stops exactly when the other's final counters do not fit them |
| `Verification.ChargeWithin` | src/search.rs:1670-1721 | a charged read never exceeds a limit |
| `SearchTrace.ReadsBytes` | src/search.rs:1662-1721 | the reads of the candidates ask for their bytes, one more in front for a token query, and one more behind a token byte inside the text |
| `SearchTrace.RunOutcome` | src/search.rs:1645-1757 | counters are those of the reads made; a run is unstopped exactly when it made them all with results to spare, and stopped by a limit exactly when its hits reach it or the next read would pass it first |
| `SearchTrace.UnstoppedBytes` | src/search.rs:1662-1721 | an unstopped run has read exactly those bytes |
| `SearchTrace.RefusedOnce` | src/reader.rs:794-823 | at most one limit is the first to be passed |
| `Search.CheckPostingBudget` | src/search.rs:1855-1873 | accepts exactly within both posting budgets |
| `Search.BudgetOfPlan` | src/search.rs:993-1021 | the budget is the same in query order and in plan order |
| `Search.PlanRanked` | src/search.rs:993-998 | lists are intersected rarest first, frequent n-grams last |
| `PlanOrdering.PlanIs` | src/search.rs:993-998 | the plan is the query's terms with frequent n-grams last, shorter lists first, and ties in dictionary order |
| `Search.CountCandidateChunks` | src/search.rs:1759-1773 | validates every candidate and counts the chunks they cover |
| `Search.LookupKeys` | src/search.rs:657-676 | positions of all keys, or the first one missing |
| `Search.SearchKeys` | src/search.rs:627-749 | lookup, budgets, plan, intersection, candidate checks and verification in the source's order |
| `Search.TokenSearch` | src/search.rs:627-749 | computes the search whose hits are proved sound for any index and equal to a plain scan for the built one |
| `Search.NgramSearch` | src/search.rs:948-1087 | computes the search whose hits are proved to be exactly the occurrences inside a line |
| `SearchOutcome.OverBudgetIsRefused` | src/search.rs:1855-1873 | a query is refused when its lists hold more ids or encoded bytes than allowed, added up key by key, or cost more work; within budget it goes on to its candidates |
| `SearchOutcome.DecidedEarly` | src/search.rs:627-676 | a query without keys, and the first key missing, end the search without work; a missing key is conclusive exactly in a complete index |
| `SearchOutcome.SearchStops` | src/search.rs:690-749 | too many candidates stop a search exactly beyond their limit; else the report's counters and stop reason are those of the reads made |
| `SearchExact.TokenHitsAreSound` | src/search.rs:1645-1757 | for any well-formed index, a hit is a token spelled like a token of the query up to the case of ASCII letters, on an original line holding all of the query's tokens |
| `SearchExact.HitChunks` | src/search.rs:1727-1742 | a hit lies inside its candidate and names the chunks of it, which hold the hit's bytes |
| `SearchExact.NgramHitsAreSound` | src/search.rs:1963-1983 | for any well-formed index, a hit is an occurrence of the query |
| `SearchExact.CandidatesExact` | src/search.rs:627-697 | on the built index the candidates are exactly the lines that have every key |
| `SearchExact.TokenSearchIsExact` | src/search.rs:627-749 | on the built index an unstopped search reports exactly the tokens spelled like a token of the query, in any case of their ASCII letters, on lines holding all of the query's tokens |
| `SearchExact.NgramSearchIsExact` | src/search.rs:948-1087 | on the built index an unstopped search for at least n scalars reports exactly the occurrences inside a line |
| `SearchExact.HitsInTextOrder` | src/search.rs:1645-1757 | on the built index hits come at strictly increasing offsets |
| `SearchExact.SearchStaysWithinLimits` | src/search.rs:1670-1721 | no search exceeds its decoded-byte, physical-byte, chunk or result limit |
| `SearchExact.LowerLimitsGivePrefix` | src/search.rs:1645-1757 | lower limits give a prefix of the hits and never an error; no stop reason means raising limits changes nothing |
| `SearchExact.UnstoppedExactly` | src/search.rs:1645-1757 | given an unstopped search, one with lower limits is unstopped exactly when the final counters fit them with room for one more hit |
| `SearchExact.RoomySearchIsUncapped` | src/search.rs:627-749 | on the built index an unstopped search exists: room for the candidates' reads and the text's hits is enough |
| `SearchExact.BuiltIsWellFormed` | src/search.rs:1597-1625 | the built index passes the checks on index construction |
| `SearchEndToEnd.TokenSearchText` | src/search.rs:508-749 | for every text, chunk table and query: building fails exactly when the text is not indexable, and an unstopped search over what it builds reports exactly the case variants of query tokens on lines holding all of them, in text order |
| `SearchEndToEnd.NgramSearchText` | src/search.rs:809-1087 | the same for every n and query of at least n scalars: exactly the occurrences inside a line, in text order |
| `SidecarGranules.RecordExact` | src/sidecar.rs:1463-1501 | a record decodes to a granule exactly when it is that granule's encoding and the layout represents it, sentinel included |
| `SidecarGranules.EncodeGranules` | src/sidecar.rs:1388-1428 | writes the section, failing exactly on values too wide for the layout |
| `SidecarLayout.LeAt` | src/sidecar.rs:1772-1778 | words are written least significant byte first |
| `SidecarLayout.GranuleLayout` | src/sidecar.rs:1388-1428 | every field of a record at its byte offset, in both layouts |
| `SidecarLayout.DecodedGranule` | src/sidecar.rs:1463-1501 | a record decodes to a granule exactly when the fields at those offsets are the granule's and the layout can represent it |
| `SidecarLayout.GranuleSectionLayout` | src/sidecar.rs:1388-1428 | the section is the number of granules and the records back to back |
| `SidecarGranules.DecodeGranules` | src/sidecar.rs:1430-1461 | finds the one list the bytes are the section of, if there is one within the limit |
| `SidecarGranules.GranulesRoundTrip` | src/sidecar.rs:1388-1461 | encoding then decoding restores the granules exactly when the layout represents them |
| `SidecarGranules.LookupAgrees` | src/sidecar.rs:918-939 | each record decodes alone to the element bulk decoding gives |
| `SidecarGranules.FetchGranule` | src/sidecar.rs:918-939 | lookup by computed offset succeeds exactly when that one record decodes and passes span validation, whatever the other records hold |
| `SidecarGranules.FetchAgrees` | src/sidecar.rs:918-939 | where bulk decoding accepts the section, direct lookup decodes the same element |
| `SidecarGranules.LineGranulesRepresented` | src/search.rs:17-26 | the compact layout represents exactly consecutive line granules that fit its widths |
| `SidecarTerms.OneTermSound` | src/sidecar.rs:1594-1656 | an accepted record is the encoding of an acceptable term |
| `SidecarTerms.OneTermComplete` | src/sidecar.rs:1594-1656 | the encoding of an acceptable term is accepted |
| `SidecarTerms.EncodeTerms` | src/sidecar.rs:1536-1565 | writes the section in either layout |
| `SidecarLayout.TermLayout` | src/sidecar.rs:1536-1565 | every field of a term at its place, in both layouts |
| `SidecarTerms.DecodeTerms` | src/sidecar.rs:1567-1661 | decodes exactly the sections characterised by the lemma below, an impossible count being refused early |
| `SidecarTerms.TermsExact` | src/sidecar.rs:1536-1661 | decoding yields terms exactly when they are acceptable, within the limits, and the bytes are their section |
| `SidecarTerms.CompactOffsets` | src/sidecar.rs:1618-1640 | compact offsets are the sums of the sizes before |
| `SidecarPostings.EncodePostingSection` | src/sidecar.rs:1663-1669 | concatenates the encoded lists |
| `SidecarPostings.DecodePostingSection` | src/sidecar.rs:1671-1702 | decodes all lists under one id budget |
| `SidecarPostings.ListsExact` | src/sidecar.rs:1671-1702 | bulk decoding gives exactly the lists the section holds where the terms say, within the id budget |
| `SidecarPostings.FetchPostings` | src/sidecar.rs:892-916 | one list read directly, with its frequency and id checks |
| `SidecarPostings.LookupAgrees` | src/sidecar.rs:892-916 | direct lookup returns the element bulk decoding returns |
| `SidecarPostings.ValidateDecodedPostings` | src/sidecar.rs:1753-1770 | frequencies and id ranges of decoded lists |
| `SidecarSections.CheckBuildSectionSize` | src/sidecar.rs:1503-1534 | passes exactly when the sections to be written fit the limit |
| `SidecarSections.SectionsSizeIs` | src/sidecar.rs:1503-1534 | the size it adds up is the sum of the real section lengths |
| `SidecarSections.SidecarRoundTrip` | src/sidecar.rs:1536-1702 | decoding what the builder writes restores every key and posting list exactly within the reader's limits |
| `SidecarSections.BuiltIndexIsWritable` | src/sidecar.rs:1536-1669 | the line index of a text is such a dictionary |
| `SidecarSections.ValidateFileTermDictionary` | src/sidecar.rs:1704-1751 | accepts exactly ascending keys with contiguous lists that fill the posting section |
| `SidecarSections.ValidateFileTerm` | src/sidecar.rs:1712-1737 | the checks on one term decide the conditions on it |
| `SidecarSections.DictionaryCovers` | src/sidecar.rs:1704-1751 | every list of an accepted dictionary lies inside the section, right after the one before |
| `SidecarSections.DecodedDictionaryPasses` | src/sidecar.rs:1704-1751 | a decoded compact dictionary passes exactly when it fills the section and respects the granule count |
| `Cbor.ReadHead` | src/cbor.rs:265-288 | a written head is read back with its value and length |
| `Cbor.HeadRead` | src/cbor.rs:405-439 | an accepted argument is the shortest head of its value |
| `CborLayout.BigEndianAt` | src/cbor.rs:265-288 | arguments are written most significant byte first |
| `CborLayout.HeadLayout` | src/cbor.rs:265-288 | a head is its major type and the shortest argument: in the initial byte up to 23, else 1, 2, 4 or 8 bytes announced by 24 to 27 |
| `CborLayout.EncodingLayout` | src/cbor.rs:203-262 | the encoding of each kind of value: major types 0 to 5, 0xf4, 0xf5 and 0xf6, items in order, map entries by ascending encoded key |
| `CborLayout.DepthIs` | src/cbor.rs:298-327 | depth is the number of arrays and maps around the innermost value |
| `CborCanon.EncodeLength` | src/cbor.rs:66-115 | measuring gives the encoded length |
| `CborCanon.CanonFaithful` | src/cbor.rs:226-262 | ordering map entries by encoded key changes neither encoding nor charges |
| `CborParser.ParseSound` | src/cbor.rs:298-439 | what is parsed is the encoding of the canonical value returned, charged exactly as measured |
| `CborParser.ParseComplete` | src/cbor.rs:298-439 | an encoding is parsed exactly when depth, items and allocation fit |
| `CborCodec.AcceptedIsEncoding` | src/cbor.rs:129-148 | any accepted byte string is the encoding of the value returned |
| `CborCodec.EncodingIsAccepted` | src/cbor.rs:129-155 | the encoding of an encodable value is accepted exactly within its measured charges and depth, returning it with map entries in canonical order |
| `CborCodec.EncodeInjective` | src/cbor.rs:203-262 | values with equal encodings are equal up to entry order |
| `CborCodec.Parser.Parse` | src/cbor.rs:298-327 | the recursive parser consumes and charges exactly as specified |
| `CborCodec.Parser.ParseMap` | src/cbor.rs:356-386 | map entries with strictly ascending encoded keys |
| `CborCodec.ValidateDeterministic` | src/cbor.rs:129-148 | consumes the whole input, and accepts exactly the encodings characterised by the two lemmas above |
| `CborCodec.EncodeValue` | src/cbor.rs:203-262 | appends the deterministic encoding |
| `CborCodec.MeasureValue` | src/cbor.rs:76-115 | measures exactly, failing only on overflow |
| `Schema.DocumentMeasure` | src/schema.rs:1078-1091 | the charges of one document entry |
| `Schema.IndexMeasure` | src/schema.rs:728-737 | documents add to the empty index; only the array head grows |
| `Schema.ValidateForWriter` | src/schema.rs:739-763 | checking one document at a time decides the bounds of the whole tree |
| `Schema.PreflightDocumentIds` | src/schema.rs:703-726 | what the identifier preflight accepts |
| `Schema.PreflightNeverRejects` | src/schema.rs:703-763 | it never rejects what the full check accepts exactly when the algorithm names have six bytes on average |
| `Schema.PreflightCounterexample` | src/schema.rs:703-726 | under any limits with room, the default ones included, a document with an empty algorithm name is rejected although the full check accepts it |
| `Schema.WriterAgreesWithReader` | src/schema.rs:739-763 | the writer's bounds hold exactly when the reader accepts the encoding |
| `MetadataFields.IndexReadsBack` | src/schema.rs:728-737 | an encoded document index that the reader accepts holds every document, in order |
| `MetadataFields.DocumentHeld` | src/schema.rs:1078-1091 | each field of a document is found under its own key |
| `Footer.FooterEncodes` | src/schema.rs:93-107 | the footer payload always encodes |
| `Footer.FixedPartConstant` | src/schema.rs:93-107 | apart from the head of the file size, its length does not depend on the file size |
| `MetadataFields.FooterReadsBack` | src/schema.rs:93-107 | an encoded footer that the reader accepts holds each field under its own key, both block references included |
| `Footer.FixedPointFooterPayload` | src/skeleton.rs:704-736 | a payload whose file size counts itself is found within eight rounds, failing exactly on overflow |
| `PhysicalRanges.ValidatePhysicalRanges` | src/fixed.rs:176-206 | accepts exactly in-bounds, pairwise disjoint ranges, empty ones included |
| `PhysicalRanges.AdjacentDecides` | src/fixed.rs:190-206 | after sorting, neighbours decide disjointness of all pairs |
| `PhysicalRanges.OverlapsIs` | src/fixed.rs:163-173 | nonempty ranges overlap exactly where they share a byte, an empty one strictly inside the other |
| `PhysicalRanges.InBodyIs` | src/fixed.rs:176-196 | a nonempty range lies between the 128-byte header and the 64-byte trailer |
| `ContextWindow.Fits` | src/context_cli.rs:321-346 | decides whether decoding a range stays within both physical limits |
| `ContextWindow.AffordableShrinks` | src/context_cli.rs:321-346 | a smaller range never costs more |
| `ContextWindow.FitLeft` | src/context_cli.rs:348-365 | the leftmost affordable start |
| `ContextWindow.FitRight` | src/context_cli.rs:367-384 | the rightmost affordable end |
| `ContextWindow.ScanRange` | src/context_cli.rs:214-231 | the widest scan inside the scope and all limits, with one guard byte in front exactly when that still fits |
| `ContextWindow.Segments` | src/context_cli.rs:386-399 | the LF-terminated pieces of the scan |
| `ContextWindow.LimitExcerpt` | src/context_cli.rs:401-420 | contains the hit, lies in the wanted range, is as long as the cap and the wanted range allow, and is balanced |
| `ContextWindow.CompleteBefore` | src/context_cli.rs:242-282 | a complete side before holds exactly the requested whole lines |
| `ContextWindow.CompleteAfter` | src/context_cli.rs:242-289 | and so does a complete side after |
| `ContextWindow.EnoughLines` | src/context_cli.rs:242-268 | an unclipped side counts as many lines as requested exactly when the scan holds them |
| `ContextWindow.Report` | src/context_cli.rs:261-289 | stop reasons and fragment flags, case by case, for the excerpt actually returned |
| `ContextWindow.Excerpt` | src/context_cli.rs:237-289 | the excerpt of a scanned range, with its stop reasons and fragment flags |
| `ContextWindow.Window` | src/context_cli.rs:212-289 | succeeds exactly when the hit fits the caps, is affordable, and the compressed sizes of the scanned chunks sum to a u64; hit in excerpt in scan in scope, the excerpt as long as cap and wanted range allow, complete sides holding the requested lines |
| `ContextWindow.ReadSucceeds` | src/context_cli.rs:232-236 | a read through a fresh cache fails exactly when the compressed sizes overflow |
| `ContextWindow.ReadWithinLimits` | src/context_cli.rs:232-236 | the read decodes within both physical limits |

## Left out

- Zstd and BLAKE3 internals, per-chunk and section checksums, key hashes: foreign code, kept as arbitrary functions.
- The streaming and builder writer (src/writer.rs) is not part of this model.
- File and positioned I/O, atomic output, argument parsing, rendering: operating-system effects and user interface.
- Field-by-field schema decoding and the block-by-block opening sequence: long chains of single checks.
- Fixed header, trailer and chunk-entry byte layouts: plain little-endian copies.
- Search metrics that are not counters of work: sizes, ratios, timings, and the reported posting bytes.
- The choice of a context scope from the document index: the scope is a parameter that contains the hit.
- The sidecar manifest and the lazy search over a sidecar file: it runs the same candidate verification on granules and lists fetched as modelled here.
- Skip points are proved usable, but the search does not use them to skip, as in the source.
- SearchExact.RoomySearchIsUncapped: states sufficient limits; the smallest ones are in SearchExact.UnstoppedExactly.
