# Inverted-index pipeline of the web_search engine, in Dafny

This project models the core of the course search engine `edu.nyu.cs.cs2580`. The model covers how the engine builds, stores and queries its compressed inverted index. Each Java class of the core becomes one module, and classes whose fields the Java code updates become Dafny classes. The parts are:

- **Posting codec** (`Compressor`, `Postings`, `VByteFacts`). The delta pass over a flattened posting list `docId, count, positions…`, with Java's `(int)` narrowing written out. Then the variable-byte code: 7-bit groups, most significant first, with bit 7 set on the last byte. Then the decoder, including its 32-bit shifting sum, and the inverse delta pass of `read`. The round trip `read(encode(buildPostingList(m))) == m` is proved for well-formed maps.
- **Per-token index and query evaluation** (`TokenIndex`, `QueryEval`, `InvertedIndex`).
  - `processDocument` recording offsets, and the three frequency queries.
  - `intersection` with its re-seeding behaviour, and `nextDoc` with its early end.
  - `weHaveAWinner` and `getDocumentsWithPhrase` with the three-entry phrase cache.
- **Index organisation** (`ShardMerge`, `BlockSplit`, `IndexFiles`, `Organizer`, `Lru`).
  - `write` of a shard file, the two-file streaming merge, and the recursive halving merge.
  - The shard ordering by numeric suffix, and `splitIndex` with its token filter and byte-threshold rollover.
  - Routing a lookup to the last block at or below the token, the block scan, and the ten-entry access-ordered token cache.
- **Query strings** (`QueryPhrase`, `CgiArguments`). The tokenizer state machine with its quote toggle, the cleaning loop with the raw-word table, and the URL parameter parser with its defaults.
- **Ranker control flow** (`RankerComprehensive`). The query cache, the spelling check, the stop-word filter with its index-shifting removal, and the bounded priority queue. Scores are opaque integers.
- **Corpus slicing and document ids** (`Slices`, `DocIds`, `Indexer`, `IdGenerator`, `CorpusAnalyzerPagerank`). Contiguous slices of the listing, ids handed out in listing order, disjoint id ranges per generator, and the per-worker indexing loop with its totals.

Java's runtime exceptions (null dereference, index out of bounds, number format, illegal argument) become `Err` values of a `Result`. They are not preconditions. Files are sequences of lines or of records, and a directory is a map from file names to contents. Helpers that mirror Java library calls (`trim`, `split`, `compareTo`, `parseInt`, `Collections.sort`, `LinkedHashMap` in access order) live in `JavaString`, `JavaInt`, `Ordered` and `Lru`.

## Model

| member | source | states |
|---|---|---|
| JavaInt.Wrap32 | src/edu/nyu/cs/cs2580/helper/Compressor.java:16 | The `int` Java keeps of a `long` difference narrowed by `(int)`: a 32-bit two's-complement value, equal to the input when it already fits. |
| JavaInt.Wrap32Add | src/edu/nyu/cs/cs2580/index/IndexerInvertedCompressed.java:75 | A running `int` sum that overflows on the way ends at the wrapped total. |
| JavaInt.Shl32 | src/edu/nyu/cs/cs2580/helper/Compressor.java:74 | Java's `int` shift: the distance is taken modulo 32 and bits shifted out are lost; the result is an `int`. |
| JavaInt.ShiftLeftExact | src/edu/nyu/cs/cs2580/helper/Compressor.java:74 | A shift that loses no bit multiplies by a power of two. |
| JavaString.LessTotal | src/edu/nyu/cs/cs2580/index/IndexOrganizer.java:195-198 | `compareTo` orders any two different strings one way or the other, never both ways. |
| JavaString.Trim | src/edu/nyu/cs/cs2580/models/QueryPhrase.java:34 | `trim()` strips leading and trailing blanks: empty exactly when every character is blank, and otherwise starts and ends with a non-blank. |
| JavaString.TrimIdempotent | src/edu/nyu/cs/cs2580/models/QueryPhrase.java:41 | Trimming a trimmed string changes nothing. |
| JavaString.ToLower | src/edu/nyu/cs/cs2580/QueryHandler.java:80 | `toLowerCase()` maps each character in place, same length. |
| JavaString.ToUpper | src/edu/nyu/cs/cs2580/QueryHandler.java:92 | `toUpperCase()` maps each character in place, same length. |
| JavaString.PlusToSpace | src/edu/nyu/cs/cs2580/models/QueryPhrase.java:68 | `replaceAll("\\+", " ")` keeps the length, turns each '+' into a space and leaves every other character. |
| JavaString.IndexOf | src/edu/nyu/cs/cs2580/index/IndexOrganizer.java:193 | `indexOf(c)` is the first position holding `c`, or -1 exactly when `c` is absent. |
| JavaString.LastIndexOf | src/edu/nyu/cs/cs2580/index/IndexOrganizer.java:118 | `lastIndexOf(c)` is the last position holding `c`, or -1 exactly when `c` is absent. |
| JavaString.IndexOfString | src/edu/nyu/cs/cs2580/index/IndexOrganizer.java:331 | `indexOf(sub)` is the first position where `sub` occurs, or -1 when it occurs nowhere. |
| JavaString.Words | src/edu/nyu/cs/cs2580/index/IndexerInvertedCompressed.java:100 | A `StringTokenizer` hands out non-empty runs free of delimiters; a delimiter-free non-empty string is one token. |
| JavaString.Split | src/edu/nyu/cs/cs2580/QueryHandler.java:74 | `split` on a one-character separator: pieces free of the separator, the whole string when there is none, trailing empty pieces dropped. |
| JavaString.SplitRuns | src/edu/nyu/cs/cs2580/models/QueryPhrase.java:58 | `split("\\s+")`: pieces free of blanks, none empty after the first, the whole string when there is no blank. |
| JavaString.SplitFirst | src/edu/nyu/cs/cs2580/QueryHandler.java:76 | `split("=", 2)`: the whole parameter when it has no '=', otherwise the text before the first '=' and everything after it. |
| JavaString.ParseInt | src/edu/nyu/cs/cs2580/QueryHandler.java:86 | `Integer.parseInt` succeeds only with an `int` value. |
| JavaString.ParseLong | src/edu/nyu/cs/cs2580/index/IndexOrganizer.java:282 | `Long.parseLong` succeeds only with a `long` value. |
| JavaString.Decimal | src/edu/nyu/cs/cs2580/index/Indexer.java:293 | The decimal text of a number: optional minus sign, then digits. |
| JavaString.DecimalRoundTrip | src/edu/nyu/cs/cs2580/index/Indexer.java:293 | Reading the decimal text of a `long` (or `int`) back gives the number. |
| JavaString.NoDigitNoNumber | src/edu/nyu/cs/cs2580/QueryHandler.java:84-89 | Text without a digit never parses as a number. |
| Ordered.Ascending | src/edu/nyu/cs/cs2580/index/IndexerInvertedCompressed.java:217-218 | The ids of a set in ascending order: strictly ascending, same elements, same count. |
| Ordered.AscendingUnique | src/edu/nyu/cs/cs2580/index/IndexerInvertedCompressed.java:217-218 | A set has exactly one ascending enumeration. |
| Ordered.SortIds | src/edu/nyu/cs/cs2580/index/IndexerInvertedCompressed.java:217-218 | `Collections.sort` of a key set yields the ascending enumeration. |
| Ordered.AscendingNames | src/edu/nyu/cs/cs2580/index/IndexOrganizer.java:78 | The keys of a `TreeMap<String,…>` in `compareTo` order: ascending, same names, same count (code-point order; see Left out). |
| Ordered.AscendingNamesUnique | src/edu/nyu/cs/cs2580/index/IndexOrganizer.java:78 | A set of names has exactly one ascending enumeration. |
| Ordered.SortNames | src/edu/nyu/cs/cs2580/index/IndexOrganizer.java:321-326 | `Arrays.sort` by name yields the ascending enumeration of the names. |
| Wrappers.Prepend | src/edu/nyu/cs/cs2580/helper/Compressor.java:76 | Output produced before a possibly failing rest: fails exactly when the rest fails. |
| Lru.Without | src/edu/nyu/cs/cs2580/index/IndexOrganizer.java:58-63 | Dropping a key from the access order keeps every other key, in order, without duplicates. |
| Lru.Empty | src/edu/nyu/cs/cs2580/index/IndexOrganizer.java:58 | A new access-ordered map holds nothing and is well formed for any positive capacity. |
| Lru.Get | src/edu/nyu/cs/cs2580/index/IndexOrganizer.java:316-317 | `get` of a present key returns its value and makes it the most recent access; a missing key returns null and leaves the map unchanged. |
| Lru.Put | src/edu/nyu/cs/cs2580/index/IndexOrganizer.java:58-63 | `put` stores the value and makes the key the most recent access; a new key beyond the capacity evicts the least recently accessed key. |
| Lru.Remove | src/edu/nyu/cs/cs2580/index/IndexOrganizer.java:343 | `remove` drops exactly that key and keeps the other entries and their order. |
| Lru.PutKeepsOthers | src/edu/nyu/cs/cs2580/index/IndexOrganizer.java:58-63 | A put never changes another key's value; the only key it can lose is the eldest one of a full map. |
| Lru.PutSurvivesNextPut | src/edu/nyu/cs/cs2580/index/IndexOrganizer.java:58-63 | With capacity above one, a key just put survives the next put of another key. |
| Compressor.Reverse | src/edu/nyu/cs/cs2580/helper/Compressor.java:48 | `Collections.reverse`: same length, element k is element n-1-k of the input. |
| Compressor.ReverseReverse | src/edu/nyu/cs/cs2580/helper/Compressor.java:48 | Reversing twice gives the list back. |
| Compressor.Gaps | src/edu/nyu/cs/cs2580/helper/Compressor.java:20-26 | Each position minus the previous one of its group (the first minus 0), narrowed to `int`; one gap per position. |
| Compressor.EncodePositions | src/edu/nyu/cs/cs2580/helper/Compressor.java:20-26 | The inner loop of `deltaEncode` writes the group's gaps, or fails reading past the end when the count overstates the positions. |
| Compressor.DeltaEncode | src/edu/nyu/cs/cs2580/helper/Compressor.java:8-29 | `deltaEncode` computes the delta pass: document ids minus the previous id, counts copied, positions minus the previous position, each narrowed to `int`. |
| Compressor.LowGroups | src/edu/nyu/cs/cs2580/helper/Compressor.java:44-47 | The do-while collects at least one 7-bit group, each below 128, least significant first. |
| Compressor.VByte | src/edu/nyu/cs/cs2580/helper/Compressor.java:42-57 | The code of one `int` is at least one byte. |
| Compressor.VBytes | src/edu/nyu/cs/cs2580/helper/Compressor.java:31-40 | The code of an array has at least one byte per element. |
| Compressor.ConvertToVBytes | src/edu/nyu/cs/cs2580/helper/Compressor.java:42-57 | `convertToVBytes(int)` computes the groups, reversed, with bit 7 set on the last byte. |
| Compressor.ConvertAllToVBytes | src/edu/nyu/cs/cs2580/helper/Compressor.java:31-40 | `convertToVBytes(int[])` is the per-element codes concatenated in order. |
| Compressor.FirstMarker | src/edu/nyu/cs/cs2580/helper/Compressor.java:63-70 | The first byte with bit 7 set, or none exactly when no byte has it. |
| Compressor.Cleared | src/edu/nyu/cs/cs2580/helper/Compressor.java:66 | A group with the marker bit of its last byte cleared; the other bytes kept. |
| Compressor.SumGroups | src/edu/nyu/cs/cs2580/helper/Compressor.java:72-75 | The accumulation loop computes the 32-bit shifting sum of the reversed groups. |
| Compressor.DecodeUnmarked | src/edu/nyu/cs/cs2580/helper/Compressor.java:63-70 | A non-empty stream without a marker byte fails (reads past the array). |
| Compressor.ReadGroup | src/edu/nyu/cs/cs2580/helper/Compressor.java:63-70 | The inner `while (true)` loop reads up to and including the first marker; it fails exactly when no marker follows. |
| Compressor.DecodeVBytes | src/edu/nyu/cs/cs2580/helper/Compressor.java:59-81 | `decodeVBytes` computes the group-by-group decoding of the stream. |
| VByteFacts.LowGroupsValue | src/edu/nyu/cs/cs2580/helper/Compressor.java:44-47 | The groups of a non-negative `int` are its base-128 digits. |
| VByteFacts.Nat32Groups | src/edu/nyu/cs/cs2580/helper/Compressor.java:44-47 | A non-negative `int` has one to five groups. |
| VByteFacts.ShiftSumIsRadix | src/edu/nyu/cs/cs2580/helper/Compressor.java:72-75 | With at most five groups below 2^31, the decoder's 32-bit shifting sum equals the plain base-128 value. |
| VByteFacts.VByteShape | src/edu/nyu/cs/cs2580/helper/Compressor.java:42-57 | At least one byte, bit 7 set on the last byte only; at most five bytes for a non-negative `int`; 0 is coded as the single byte 0x80. |
| VByteFacts.VByteCleared | src/edu/nyu/cs/cs2580/helper/Compressor.java:48-51 | Clearing the marker of a code gives the groups most significant first. |
| VByteFacts.VByteValue | src/edu/nyu/cs/cs2580/helper/Compressor.java:42-81 | Decoding one code gives back its non-negative `int`. |
| VByteFacts.DecodeFirstCode | src/edu/nyu/cs/cs2580/helper/Compressor.java:59-81 | The code stream is self-delimiting: a code followed by more bytes decodes to its number first. |
| VByteFacts.VBytesRoundTrip | src/edu/nyu/cs/cs2580/helper/Compressor.java:31-81 | Decoding the codes of non-negative `int`s gives them back, in order. |
| VByteFacts.NegativeIsLossy | src/edu/nyu/cs/cs2580/helper/Compressor.java:44-47 | A negative `int` is coded as one byte and decodes to a different, non-negative number. |
| VByteFacts.UnterminatedFails | src/edu/nyu/cs/cs2580/helper/Compressor.java:63-70 | A stream whose last number lacks its marker byte fails to decode. |
| Postings.FlattenFrom | src/edu/nyu/cs/cs2580/index/IndexerInvertedCompressed.java:219-224 | The groups of the listed documents, one after the other: two numbers per document plus its positions. |
| Postings.FlattenLength | src/edu/nyu/cs/cs2580/index/IndexerInvertedCompressed.java:215-226 | The flattened list has length Σ(2 + number of positions). |
| Postings.BuildPostingList | src/edu/nyu/cs/cs2580/index/IndexerInvertedCompressed.java:215-226 | `buildPostingList` emits `docId, count, positions…` for each document in ascending id order. |
| Postings.AppendGroups | src/edu/nyu/cs/cs2580/index/IndexerInvertedCompressed.java:219-224 | The loop over the sorted ids appends each document's group. |
| Postings.DeltaShape | src/edu/nyu/cs/cs2580/helper/Compressor.java:8-29 | A delta pass that succeeds keeps the length and yields `int`s only. |
| Postings.Encoded | src/edu/nyu/cs/cs2580/index/IndexerInvertedCompressed.java:55-57 | `encode`: the delta pass then the byte code; it fails exactly when the delta pass fails. |
| Postings.Encode | src/edu/nyu/cs/cs2580/index/IndexerInvertedCompressed.java:55-57 | `encode` computes `Encoded`. |
| Postings.PrefixSums | src/edu/nyu/cs/cs2580/index/IndexerInvertedCompressed.java:306-312 | Running sums of the gaps: one position per gap. |
| Postings.Undelta | src/edu/nyu/cs/cs2580/index/IndexerInvertedCompressed.java:298-313 | The group loop of `read` fails only with an out-of-bounds read. |
| Postings.Restored | src/edu/nyu/cs/cs2580/index/IndexerInvertedCompressed.java:290-317 | `read`: a stream that does not decode fails with an out-of-bounds read; otherwise the numbers are undone group by group. |
| Postings.ReadPositions | src/edu/nyu/cs/cs2580/index/IndexerInvertedCompressed.java:306-312 | The inner loop of `read` adds each gap to the previous position, or fails reading past the end. |
| Postings.UndeltaTooShort | src/edu/nyu/cs/cs2580/index/IndexerInvertedCompressed.java:304-308 | A group the numbers do not complete makes `read` fail. |
| Postings.ReadGroupAt | src/edu/nyu/cs/cs2580/index/IndexerInvertedCompressed.java:299-312 | One pass of the outer loop of `read` either fails as `Undelta` does or moves forward. |
| Postings.Read | src/edu/nyu/cs/cs2580/index/IndexerInvertedCompressed.java:290-317 | `read` computes `Restored`. |
| Postings.Restrict | src/edu/nyu/cs/cs2580/index/IndexerInvertedCompressed.java:219-224 | The map restricted to listed documents. |
| Postings.GapsUndone | src/edu/nyu/cs/cs2580/helper/Compressor.java:20-26 | Gaps of ascending positions are non-negative `int`s and their running sums give the positions back. |
| Postings.FlattenDelta | src/edu/nyu/cs/cs2580/helper/Compressor.java:8-29 | On a well-formed list the delta pass succeeds with non-negative `int`s. |
| Postings.UndeltaFlat | src/edu/nyu/cs/cs2580/index/IndexerInvertedCompressed.java:298-313 | The reader undoes the delta pass group by group. |
| Postings.RoundTrip | src/edu/nyu/cs/cs2580/index/IndexerInvertedCompressed.java:55-57 | Round trip: reading the encoded flattened list of a well-formed map gives the map back. |
| Postings.MalformedCount | src/edu/nyu/cs/cs2580/helper/Compressor.java:21-22 | A count larger than the positions that follow makes the delta pass and `read` index past the end. |
| TokenIndex.PositionsOf | src/edu/nyu/cs/cs2580/index/IndexerInvertedCompressed.java:106-113 | The offsets at which a token occurs in a body: ascending, and exactly those offsets. |
| TokenIndex.OffsetsPartition | src/edu/nyu/cs/cs2580/index/IndexerInvertedCompressed.java:106-113 | Each offset 0..n-1 is recorded once, under the token found there, and never under two tokens. |
| TokenIndex.AbsentNoPositions | src/edu/nyu/cs/cs2580/index/IndexerInvertedCompressed.java:106-113 | A token absent from the body gets no offsets. |
| TokenIndex.AddAllKeepsOthers | src/edu/nyu/cs/cs2580/index/IndexerInvertedCompressed.java:106-113 | `processDocument` leaves every other document of every token alone. |
| TokenIndex.AddAllFresh | src/edu/nyu/cs/cs2580/index/IndexerInvertedCompressed.java:106-113 | For a new document each body token maps it to exactly its ascending offsets; other tokens do not gain it. |
| TokenIndex.DocSets | src/edu/nyu/cs/cs2580/index/IndexerInvertedCompressed.java:248-251 | `getDocsWithTokens` gathers one set per token, in order. |
| TokenIndex.LoadWordSettles | src/edu/nyu/cs/cs2580/index/IndexerInvertedCompressed.java:279-288 | A successful load only adds the word, settles it, and loading it again changes nothing. |
| TokenIndex.LoadWordKeepsSettled | src/edu/nyu/cs/cs2580/index/IndexerInvertedCompressed.java:286 | Loading other words keeps a settled word's entry. |
| TokenIndex.SettledLoad | src/edu/nyu/cs/cs2580/index/IndexerInvertedCompressed.java:286 | `buildIndexFor` returns at once for a token already in the index. |
| TokenIndex.UrlFrequency | src/edu/nyu/cs/cs2580/index/IndexerInvertedCompressed.java:86-89 | The frequency loop yields a non-negative count or fails. |
| TokenIndex.UrlFrequencyMeaning | src/edu/nyu/cs/cs2580/index/IndexerInvertedCompressed.java:80-90 | The count of the first document with the URL, 0 when none has it; a missing document before a match throws. |
| TokenIndex.GrowsTransitive | src/edu/nyu/cs/cs2580/index/IndexerInvertedCompressed.java:274-287 | Index growth composes. |
| TokenIndex.Merged | src/edu/nyu/cs/cs2580/index/IndexerInvertedCompressed.java:274-275 | The phrase's entry, created empty when missing, gains the answer's documents with the answer's positions, keeps its other documents, and no other entry changes. |
| TokenIndex.MergeGrows | src/edu/nyu/cs/cs2580/index/IndexerInvertedCompressed.java:274-275 | Merging a phrase's documents into its entry is growth. |
| TokenIndex.LoadWordGrows | src/edu/nyu/cs/cs2580/index/IndexerInvertedCompressed.java:279-287 | Loading a word is growth. |
| TokenIndex.GrowsKeepsSettled | src/edu/nyu/cs/cs2580/index/IndexerInvertedCompressed.java:286 | Growth keeps a settled word's documents. |
| TokenIndex.PhraseDocsStep | src/edu/nyu/cs/cs2580/index/IndexerInvertedCompressed.java:327-337 | One document of the phrase loop: an exception ends the loop, otherwise its winners are collected. |
| TokenIndex.PhraseDocsMeaning | src/edu/nyu/cs/cs2580/index/IndexerInvertedCompressed.java:327-337 | When every id has its document and every document holds every token, the loop adds exactly the documents with a start, each with all its starts ascending. |
| TokenIndex.SumPositions | src/edu/nyu/cs/cs2580/index/IndexerInvertedCompressed.java:74-76 | The summing loop of `corpusTermFrequency` computes the wrapped total of the list lengths. |
| TokenIndex.FirstUrlCount | src/edu/nyu/cs/cs2580/index/IndexerInvertedCompressed.java:83-89 | The loop of `documentTermFrequency` computes `UrlFrequency` over the ascending ids. |
| QueryEval.Retain | src/edu/nyu/cs/cs2580/index/IndexerInvertedCompressed.java:260-264 | The inner loop removes from a copy of the result every id the set lacks: the result intersected with the set. |
| QueryEval.Intersection | src/edu/nyu/cs/cs2580/index/IndexerInvertedCompressed.java:254-269 | `intersection` computes the running result over the sets. |
| QueryEval.NonEmptyHasPresent | src/edu/nyu/cs/cs2580/index/IndexerInvertedCompressed.java:257 | A non-empty result needs a non-null set; null sets alone give the empty set. |
| QueryEval.WithinLastPresent | src/edu/nyu/cs/cs2580/index/IndexerInvertedCompressed.java:254-269 | The result lies within the last non-null set. |
| QueryEval.CommonIdsKept | src/edu/nyu/cs/cs2580/index/IndexerInvertedCompressed.java:254-269 | An id common to all non-null sets is never lost. |
| QueryEval.ExactWhenCommon | src/edu/nyu/cs/cs2580/index/IndexerInvertedCompressed.java:254-269 | When some id is common to all non-null sets, the result is exactly the true intersection. |
| QueryEval.ReseedingKeepsStrangers | src/edu/nyu/cs/cs2580/index/IndexerInvertedCompressed.java:258 | Re-seeding: after the result empties, the next set is copied whole, so the result can hold an id missing from an earlier set. |
| QueryEval.InsertionPoint | src/edu/nyu/cs/cs2580/index/IndexerInvertedCompressed.java:232 | Where a missing key would be inserted: every element before it is smaller, the one at it is not. |
| QueryEval.BinarySearch | src/edu/nyu/cs/cs2580/index/IndexerInvertedCompressed.java:232 | `Collections.binarySearch`: the key's index, or minus one minus the insertion point when absent. |
| QueryEval.NextDocId | src/edu/nyu/cs/cs2580/index/IndexerInvertedCompressed.java:229-246 | The id `nextDoc` moves to lies above `docid` and is the least such id. It is null exactly when no id lies above `docid`, or when `docid` is absent and every id but the last lies below it. |
| QueryEval.NextDocIn | src/edu/nyu/cs/cs2580/index/IndexerInvertedCompressed.java:232-245 | `nextDoc`'s index arithmetic on the search result computes `NextDocId`. |
| QueryEval.NextDocMissesLast | src/edu/nyu/cs/cs2580/index/IndexerInvertedCompressed.java:236-239 | The off-by-one: from an id below the only candidate, `nextDoc` returns null although a larger id exists. |
| QueryEval.MatchAt | src/edu/nyu/cs/cs2580/index/IndexerInvertedCompressed.java:351-354 | The flag loop computes `Matches` for one occurrence. |
| QueryEval.FirstWinner | src/edu/nyu/cs/cs2580/index/IndexerInvertedCompressed.java:348-361 | `weHaveAWinner` after its map is built computes `Winner`. |
| QueryEval.MatchesMeaning | src/edu/nyu/cs/cs2580/index/IndexerInvertedCompressed.java:352-354 | The flag stays true exactly when every later token follows at the next offsets; it can only throw on a null list. |
| QueryEval.StartsMeaning | src/edu/nyu/cs/cs2580/index/IndexerInvertedCompressed.java:349-358 | The starts are exactly the occurrences after `i` at which the phrase follows; an ascending list gives ascending starts. |
| QueryEval.WinnerIsSmallestStart | src/edu/nyu/cs/cs2580/index/IndexerInvertedCompressed.java:342-362 | `weHaveAWinner` returns the smallest occurrence after `i` at which the whole phrase follows, or -1 when there is none. |
| QueryEval.WinnerSound | src/edu/nyu/cs/cs2580/index/IndexerInvertedCompressed.java:348-361 | Any winner lies after `i` in the first token's list and starts the phrase. |
| QueryEval.CountAboveDecreases | src/edu/nyu/cs/cs2580/index/IndexerInvertedCompressed.java:332 | Each winner is above the previous bound, so the winner loop terminates. |
| QueryEval.WinnersAreStarts | src/edu/nyu/cs/cs2580/index/IndexerInvertedCompressed.java:329-336 | The winner loop for one document collects exactly the starts after -1, strictly ascending, missing none. |
| QueryEval.InEveryListIsNullFree | src/edu/nyu/cs/cs2580/index/IndexerInvertedCompressed.java:346 | A document holding every token gives no null list. |
| QueryEval.ReseededPhraseThrows | src/edu/nyu/cs/cs2580/index/IndexerInvertedCompressed.java:325-353 | Re-seeding can hand the phrase loop a document that lacks a word, and the flag loop then throws. |
| InvertedIndex.WinnersLoopStep | src/edu/nyu/cs/cs2580/index/IndexerInvertedCompressed.java:332-336 | One pass of the winner loop: an exception or -1 ends it; any other winner extends the list and lies above the bound. |
| InvertedIndex.NoDocNoWinner | src/edu/nyu/cs/cs2580/index/IndexerInvertedCompressed.java:328-332 | Without a document the winner search gives only -1 or an exception. |
| InvertedIndex.PhraseWords | src/edu/nyu/cs/cs2580/index/IndexerInvertedCompressed.java:324 | The pieces of a phrase split on blanks hold no space. |
| InvertedIndex.IndexerInvertedCompressed.constructor | src/edu/nyu/cs/cs2580/index/IndexerInvertedCompressed.java:40-53 | A new indexer: empty token index, empty phrase cache of capacity 3. |
| InvertedIndex.IndexerInvertedCompressed.ProcessDocument | src/edu/nyu/cs/cs2580/index/IndexerInvertedCompressed.java:98-113 | The k-th body token is recorded at offset k; the document is stored with the token count as its size; a missing page rank throws after the tokens are recorded. |
| InvertedIndex.IndexerInvertedCompressed.BuildIndexFor | src/edu/nyu/cs/cs2580/index/IndexerInvertedCompressed.java:285-288 | A token already present is kept; otherwise the bytes, if any, are read into its entry; a failing read leaves the index unchanged. |
| InvertedIndex.IndexerInvertedCompressed.GetDocsWithToken | src/edu/nyu/cs/cs2580/index/IndexerInvertedCompressed.java:271-283 | A word is loaded through the organizer and answered with its documents or null; a phrase is answered with the key set of `getDocumentsWithPhrase`'s answer, which is merged into its entry: on a cache hit the cached answer over the old index, on a miss the phrase search over the index with the phrase's words loaded. |
| InvertedIndex.IndexerInvertedCompressed.GetDocsWithPhrase | src/edu/nyu/cs/cs2580/index/IndexerInvertedCompressed.java:272-276 | The answer is the key set of `getDocumentsWithPhrase`'s result `found`, and the index becomes the `putAll` of `found` into the phrase's entry (created when missing): on a cache hit `found` is the cached value and the cache records the access; on a miss `found` is `PhraseSearched`'s answer over the loaded index and is cached. |
| InvertedIndex.PhraseSearchedMeaning | src/edu/nyu/cs/cs2580/index/IndexerInvertedCompressed.java:319-340 | Over a consistent index, a phrase search's answer holds exactly the documents with all the phrase's words in which the phrase starts, each with all its starts ascending. |
| InvertedIndex.IndexerInvertedCompressed.GetDocsWithWord | src/edu/nyu/cs/cs2580/index/IndexerInvertedCompressed.java:278-282 | `loadIndexFor` then `buildIndexFor`: the index becomes `LoadWord`'s result; a failure leaves it unchanged. |
| InvertedIndex.IndexerInvertedCompressed.GetDocsWithTokens | src/edu/nyu/cs/cs2580/index/IndexerInvertedCompressed.java:248-251 | Each token's documents in order, then their intersection; the index grows as the loads say. A word's set is its settled documents; a phrase's set is the key set of the answer its phrase search gave, which lies within its entry. |
| InvertedIndex.IndexerInvertedCompressed.GetDocumentsWithPhrase | src/edu/nyu/cs/cs2580/index/IndexerInvertedCompressed.java:319-340 | A cached phrase is answered from the cache; otherwise its words are loaded, the documents holding all of them are scanned for winners, and the answer is cached. |
| InvertedIndex.IndexerInvertedCompressed.CollectPhraseDocs | src/edu/nyu/cs/cs2580/index/IndexerInvertedCompressed.java:327-337 | The document loop computes `PhraseDocs`. |
| InvertedIndex.IndexerInvertedCompressed.WinnersOf | src/edu/nyu/cs/cs2580/index/IndexerInvertedCompressed.java:329-336 | The winner loop for one document computes `WinnersFor`. |
| InvertedIndex.IndexerInvertedCompressed.WeHaveAWinner | src/edu/nyu/cs/cs2580/index/IndexerInvertedCompressed.java:342-362 | `weHaveAWinner` with the tokens loaded computes `WinnerFor` and changes nothing. |
| InvertedIndex.IndexerInvertedCompressed.NextDoc | src/edu/nyu/cs/cs2580/index/IndexerInvertedCompressed.java:229-246 | `nextDoc` returns the document of the id `NextDocId` picks in the sorted intersection of the tokens' sets: a word's documents, or the key set of a phrase's answer. |
| InvertedIndex.IndexerInvertedCompressed.CorpusDocFrequencyByTerm | src/edu/nyu/cs/cs2580/index/IndexerInvertedCompressed.java:60-67 | The number of documents in the term's entry after loading it, 0 when there is none. |
| InvertedIndex.IndexerInvertedCompressed.CorpusTermFrequency | src/edu/nyu/cs/cs2580/index/IndexerInvertedCompressed.java:70-77 | The wrapped sum of the term's list lengths, 0 when there is no entry. |
| InvertedIndex.IndexerInvertedCompressed.DocumentTermFrequency | src/edu/nyu/cs/cs2580/index/IndexerInvertedCompressed.java:80-90 | The count of the first document whose URL matches, 0 when none does or the term is absent. |
| ShardMerge.Render | src/edu/nyu/cs/cs2580/index/IndexOrganizer.java:80 | `" " + n` for every number: empty exactly when there are no numbers. |
| ShardMerge.Lines | src/edu/nyu/cs/cs2580/index/IndexOrganizer.java:78-82 | One line per posting, in order. |
| ShardMerge.Write | src/edu/nyu/cs/cs2580/index/IndexOrganizer.java:73-88 | `write` emits one line per key in ascending key order, each the token followed by `" " + n` for every number. |
| ShardMerge.WriteLine | src/edu/nyu/cs/cs2580/index/IndexOrganizer.java:79-81 | One line of `write` is the posting's line. |
| ShardMerge.WriteSorted | src/edu/nyu/cs/cs2580/index/IndexOrganizer.java:78 | The postings `write` emits are sorted with distinct tokens. |
| ShardMerge.KeyOf | src/edu/nyu/cs/cs2580/index/IndexOrganizer.java:193-194 | The token of a line is its text before the first space, free of spaces. |
| ShardMerge.MergeUnfold | src/edu/nyu/cs/cs2580/index/IndexOrganizer.java:192-205 | One step of the merge loop: a line without a space throws; the smaller token's line is written; equal tokens are joined. |
| ShardMerge.MergeFiles | src/edu/nyu/cs/cs2580/index/IndexOrganizer.java:191-214 | The two-file merge loop computes `Merge`. |
| ShardMerge.CopyRest | src/edu/nyu/cs/cs2580/index/IndexOrganizer.java:207-214 | The leftover lines of either reader are copied verbatim, in order. |
| ShardMerge.KeyOfLine | src/edu/nyu/cs/cs2580/index/IndexOrganizer.java:193 | The key read back from a written line is the posting's token. |
| ShardMerge.JoinedLines | src/edu/nyu/cs/cs2580/index/IndexOrganizer.java:202 | Joining two lines of the same token writes file 1's numbers followed by file 2's. |
| ShardMerge.MergeRendered | src/edu/nyu/cs/cs2580/index/IndexOrganizer.java:181-222 | The merge of written files is the written merge of their postings, and never throws. |
| ShardMerge.MergeSorted | src/edu/nyu/cs/cs2580/index/IndexOrganizer.java:191-206 | Merging two sorted files gives a sorted file in which each token holds file 1's numbers followed by file 2's. |
| ShardMerge.MergeWellFormed | src/edu/nyu/cs/cs2580/index/IndexOrganizer.java:191-214 | Merging keeps every posting readable. |
| ShardMerge.MergeDocumentIndices | src/edu/nyu/cs/cs2580/index/IndexOrganizer.java:136-171 | The recursive merge computes `MergeTree` on non-empty lists. |
| ShardMerge.MergeAllSorted | src/edu/nyu/cs/cs2580/index/IndexOrganizer.java:136-171 | Merging sorted shard files gives one sorted file whose numbers per token come from every shard, in list order. |
| ShardMerge.MergeTreeRendered | src/edu/nyu/cs/cs2580/index/IndexOrganizer.java:136-171 | On written files the halving merge never fails and writes the merge of all shards' postings. |
| ShardMerge.ShardsMembers | src/edu/nyu/cs/cs2580/index/IndexOrganizer.java:106-111 | The shard files are exactly the listed names that contain the prefix. |
| ShardMerge.Insert | src/edu/nyu/cs/cs2580/index/IndexOrganizer.java:113-124 | Insertion keeps every element and adds one. |
| ShardMerge.InsertKeepsOrder | src/edu/nyu/cs/cs2580/index/IndexOrganizer.java:113-124 | Insertion keeps shards ordered by number. |
| ShardMerge.SortByNumber | src/edu/nyu/cs/cs2580/index/IndexOrganizer.java:113-124 | The sort by shard number orders by number and is a permutation. |
| ShardMerge.Numbered | src/edu/nyu/cs/cs2580/index/IndexOrganizer.java:116-121 | Every shard paired with its number; none exactly when some number does not parse. |
| ShardMerge.ShardOrder | src/edu/nyu/cs/cs2580/index/IndexOrganizer.java:113-124 | With two or more files, a number that does not parse throws; otherwise the order is a permutation of the shards. |
| ShardMerge.SortedNamesFrom | src/edu/nyu/cs/cs2580/index/IndexOrganizer.java:113-124 | Sorting keeps each shard's name and number. |
| ShardMerge.ShardOrderByNumber | src/edu/nyu/cs/cs2580/index/IndexOrganizer.java:113-124 | With two shards or more, the order ascends by number. |
| ShardMerge.Contents | src/edu/nyu/cs/cs2580/index/IndexOrganizer.java:125 | The contents of the named files, in order. |
| ShardMerge.MergeShards | src/edu/nyu/cs/cs2580/index/IndexOrganizer.java:102-128 | `mergeDocumentIndices()` computes `FullIndex`: filter the listing, sort by number, merge. |
| ShardMerge.FullIndexOfWritten | src/edu/nyu/cs/cs2580/index/IndexOrganizer.java:102-171 | When every shard holds what `write` wrote and the numbers parse, the full index is the sorted rendering of the merged postings. |
| IndexFiles.Stem | src/edu/nyu/cs/cs2580/index/IndexOrganizer.java:331 | The name up to the first ".idx". |
| IndexFiles.LastBelow | src/edu/nyu/cs/cs2580/index/IndexOrganizer.java:327-335 | The last index file whose stem does not sort after the token; none exactly when no file qualifies. |
| IndexFiles.RouteIsLastBelow | src/edu/nyu/cs/cs2580/index/IndexOrganizer.java:327-335 | When stems ascend with the names, the routing loop's early exit picks the last file at or below the token. |
| IndexFiles.RouteStopsEarly | src/edu/nyu/cs/cs2580/index/IndexOrganizer.java:331-332 | The early exit can stop at a name whose stem sorts after the token while a matching file follows. |
| IndexFiles.Scan | src/edu/nyu/cs/cs2580/index/IndexOrganizer.java:348-366 | `buildIndexFor(File, token)` returns the bytes of the first record with the token; none exactly when no record has it. |
| IndexFiles.RouteChoosesBelow | src/edu/nyu/cs/cs2580/index/IndexOrganizer.java:327-335 | The chosen file is one of the names, an index file at or below the token. |
| Organizer.IndexOrganizer.constructor | src/edu/nyu/cs/cs2580/index/IndexOrganizer.java:58-71 | A new organizer with an empty token cache. |
| Organizer.IndexOrganizer.RouteLoop | src/edu/nyu/cs/cs2580/index/IndexOrganizer.java:327-335 | The routing loop over the sorted names skips non-index files, stops at the first stem above the token, and returns the last index file before it. |
| Organizer.IndexOrganizer.BuildIndexFor | src/edu/nyu/cs/cs2580/index/IndexOrganizer.java:348-366 | The block scan returns the bytes of the first record with the token, or null at the end of the file. |
| Organizer.IndexOrganizer.LoadIndexFor | src/edu/nyu/cs/cs2580/index/IndexOrganizer.java:315-339 | A cache hit is answered without routing and becomes the most recent access; a miss is routed, scanned and cached, null included; the answer always matches the files. |
| Organizer.IndexOrganizer.CachePut | src/edu/nyu/cs/cs2580/index/IndexOrganizer.java:337 | The answer is put into the token cache. |
| Organizer.IndexOrganizer.RemoveFromCache | src/edu/nyu/cs/cs2580/index/IndexOrganizer.java:341-346 | True exactly when the token was cached; only that entry goes. |
| BlockSplit.Cut | src/edu/nyu/cs/cs2580/index/IndexOrganizer.java:246 | The token and the rest of a line; a line without a space throws. |
| BlockSplit.ParseLongs | src/edu/nyu/cs/cs2580/index/IndexOrganizer.java:279-283 | Every number parsed, or the first `NumberFormatException`. |
| BlockSplit.RecordOf | src/edu/nyu/cs/cs2580/index/IndexOrganizer.java:279-292 | A kept line's record is keyed by the token; parsing or encoding fails only with a number-format or out-of-bounds exception. |
| BlockSplit.Append | src/edu/nyu/cs/cs2580/index/IndexOrganizer.java:273-300 | Writing a record opens a block when none is open and leaves the dictionary alone. |
| BlockSplit.ParseNumbers | src/edu/nyu/cs/cs2580/index/IndexOrganizer.java:279-283 | The tokenizer loop computes `ParseLongs`. |
| BlockSplit.ReadRecord | src/edu/nyu/cs/cs2580/index/IndexOrganizer.java:279-288 | Parsing and encoding a kept line computes `RecordOf`. |
| BlockSplit.WriteRecord | src/edu/nyu/cs/cs2580/index/IndexOrganizer.java:273-300 | The write and rollover compute `Append`. |
| BlockSplit.KeepLine | src/edu/nyu/cs/cs2580/index/IndexOrganizer.java:249-300 | The loop body for a kept line computes `Keep`. |
| BlockSplit.StepCut | src/edu/nyu/cs/cs2580/index/IndexOrganizer.java:247 | A token longer than 20 characters or matching `.*[0-9].*` (a digit and no line terminator) is skipped; any other is kept. |
| BlockSplit.SplitIndex | src/edu/nyu/cs/cs2580/index/IndexOrganizer.java:229-312 | `splitIndex` (corrected) computes `Split`. |
| BlockSplit.KeptRecordsKept | src/edu/nyu/cs/cs2580/index/IndexOrganizer.java:247 | Only kept tokens are written. |
| BlockSplit.LetterTokensMembers | src/edu/nyu/cs/cs2580/index/IndexOrganizer.java:249 | A token reaches the dictionary exactly when it is written and made of letters. |
| BlockSplit.AppendFlat | src/edu/nyu/cs/cs2580/index/IndexOrganizer.java:290-292 | Writing a record appends it to the records of the blocks. |
| BlockSplit.AppendShaped | src/edu/nyu/cs/cs2580/index/IndexOrganizer.java:294-300 | Writing a record keeps the rollover invariant: closed blocks reached the threshold, the open one has not. |
| BlockSplit.WriteAllFails | src/edu/nyu/cs/cs2580/index/IndexOrganizer.java:244-301 | The loop fails exactly when some line throws, with the first fault. |
| BlockSplit.WriteAllBlocks | src/edu/nyu/cs/cs2580/index/IndexOrganizer.java:244-301 | Otherwise the kept records are appended to the blocks, in order. |
| BlockSplit.WriteAllDictionary | src/edu/nyu/cs/cs2580/index/IndexOrganizer.java:249 | and their letter tokens are appended to the dictionary. |
| BlockSplit.SplitMeaning | src/edu/nyu/cs/cs2580/index/IndexOrganizer.java:229-312 | `splitIndex` over the whole index: the blocks hold exactly the kept records in order, each block named after its first record, under the rollover rule. |
| BlockSplit.NamesAscend | src/edu/nyu/cs/cs2580/index/IndexOrganizer.java:274 | Blocks cut from ascending records have ascending names and stems. |
| BlockSplit.ScanFinds | src/edu/nyu/cs/cs2580/index/IndexOrganizer.java:352-357 | Over ascending tokens the scan stops at the record sought. |
| BlockSplit.DirectoryNames | src/edu/nyu/cs/cs2580/index/IndexOrganizer.java:274-276 | The directory the blocks make lists their names in block order, each with its records. |
| BlockSplit.RouteToBlock | src/edu/nyu/cs/cs2580/index/IndexOrganizer.java:327-335 | Routing picks the last block whose first token does not sort after the token. |
| BlockSplit.LookupFindsRecord | src/edu/nyu/cs/cs2580/index/IndexOrganizer.java:315-366 | A lookup in the directory of the blocks finds every record. |
| BlockSplit.SplitThenLookup | src/edu/nyu/cs/cs2580/index/IndexOrganizer.java:229-366 | `splitIndex` then `loadIndexFor` (corrected): every kept record is found by its token. |
| BlockSplit.AsWrittenLosesToken | src/edu/nyu/cs/cs2580/index/IndexOrganizer.java:267 | As written, a lower-case token opening a JSON file is renamed to its JSON text, so its block and record are keyed wrongly and its lookup finds nothing. |
| QueryPhrase.NonBlank | src/edu/nyu/cs/cs2580/models/QueryPhrase.java:34-35 | A piece is emitted, untrimmed, only when its trim is non-empty. |
| QueryPhrase.Trimmed | src/edu/nyu/cs/cs2580/models/QueryPhrase.java:41-42 | A phrase is emitted trimmed only when non-empty. |
| QueryPhrase.TokensWellFormed | src/edu/nyu/cs/cs2580/models/QueryPhrase.java:39-46 | No token holds a quote, and every token has a non-blank character. |
| QueryPhrase.PlainQuery | src/edu/nyu/cs/cs2580/models/QueryPhrase.java:30-37 | Without quotes, the tokens are the non-blank pieces between separators ('+' or a space character), all but the last untrimmed. |
| QueryPhrase.Spaced | src/edu/nyu/cs/cs2580/models/QueryPhrase.java:32 | Inside quotes each separator becomes a single space. |
| QueryPhrase.QuotedPhrase | src/edu/nyu/cs/cs2580/models/QueryPhrase.java:39-52 | A quoted phrase is one trimmed token with separators as spaces; a missing closing quote still emits it. |
| QueryPhrase.ShownQueryTokenizesAlike | src/edu/nyu/cs/cs2580/models/QueryPhrase.java:67-69 | The printed query tokenizes to the same tokens as the query. |
| QueryPhrase.WordPuts | src/edu/nyu/cs/cs2580/models/QueryPhrase.java:58-62 | The `raw.put` calls for one token all happen exactly when the cleaned token has at least as many words. |
| QueryPhrase.CleanAll | src/edu/nyu/cs/cs2580/models/QueryPhrase.java:54-57 | Every token cleaned, one to one. |
| QueryPhrase.ApplyTwice | src/edu/nyu/cs/cs2580/models/QueryPhrase.java:60-62 | Making the same puts again changes nothing. |
| QueryPhrase.ProcessIdempotent | src/edu/nyu/cs/cs2580/models/QueryPhrase.java:24-25 | A second `processQuery` gives the same tokens and raw table. |
| QueryPhrase.CleanPutsOk | src/edu/nyu/cs/cs2580/models/QueryPhrase.java:58-62 | The cleaning loop fails exactly when some token cleans to fewer words. |
| QueryPhrase.RawCoversCleanedWords | src/edu/nyu/cs/cs2580/models/QueryPhrase.java:58-62 | After a normal return every cleaned word maps back to a typed word. |
| QueryPhrase.ProcessTokens | src/edu/nyu/cs/cs2580/models/QueryPhrase.java:24-65 | A null query gives no tokens; otherwise as many tokens as the tokenizer produced, each cleaned. |
| QueryPhrase.QueryPhrase.Init | src/edu/nyu/cs/cs2580/models/QueryPhrase.java:15-21 | The field initialisers and the assignment of the query; the constructor's call to `processQuery` is made by `Create`, which returns what `processQuery` throws as an `Err`. |
| QueryPhrase.QueryPhrase.Create | src/edu/nyu/cs/cs2580/models/QueryPhrase.java:19-22 | `new QueryPhrase(query)` succeeds exactly when `processQuery` does, and then holds the processed tokens and raw table. |
| QueryPhrase.QueryPhrase.ProcessQuery | src/edu/nyu/cs/cs2580/models/QueryPhrase.java:24-65 | `processQuery` computes `Process` from the query and the raw table. |
| QueryPhrase.QueryPhrase.CleanTokens | src/edu/nyu/cs/cs2580/models/QueryPhrase.java:54-64 | The cleaning loop computes `Process`. |
| QueryPhrase.QueryPhrase.PutWords | src/edu/nyu/cs/cs2580/models/QueryPhrase.java:58-62 | The inner loop records the typed words under the cleaned words, false where the cleaned token runs out. |
| QueryPhrase.QueryPhrase.ToString | src/edu/nyu/cs/cs2580/models/QueryPhrase.java:67-69 | `toString` throws on a null query; otherwise same length, no '+', every other character kept. |
| QueryPhrase.QueryPhrase.GetRaw | src/edu/nyu/cs/cs2580/models/QueryPhrase.java:71-73 | The typed word of a cleaned word, or null exactly when none is recorded. |
| CgiArguments.Pairs | src/edu/nyu/cs/cs2580/QueryHandler.java:74-81 | One pair per parameter with a '=': key lower-cased, value verbatim. |
| CgiArguments.LastSettingWins | src/edu/nyu/cs/cs2580/QueryHandler.java:75-115 | The default holds exactly when no pair with the key reads; otherwise the value comes from a pair after which no pair with the key reads. |
| CgiArguments.OtherKeyIgnored | src/edu/nyu/cs/cs2580/QueryHandler.java:82-114 | A parameter with another key does not change a setting. |
| CgiArguments.OneParameter | src/edu/nyu/cs/cs2580/QueryHandler.java:76-81 | One parameter: the key lower-cased, the value everything after the first '='. |
| CgiArguments.CgiArguments.constructor | src/edu/nyu/cs/cs2580/QueryHandler.java:44-116 | Each setting is the last readable value of its key, or its default (query "", num 10, ranker NONE, format TEXT, numdocs and numterms 0). |
| CgiArguments.CgiArguments.SetArgument | src/edu/nyu/cs/cs2580/QueryHandler.java:80-114 | A recognised key sets its field when the value reads; anything else changes nothing. |
| RankerComprehensive.StopThreshold | src/edu/nyu/cs/cs2580/rankers/RankerComprehensive.java:113 | Half the documents, rounded down. |
| RankerComprehensive.RoutedMeaning | src/edu/nyu/cs/cs2580/index/IndexerInvertedCompressed.java:271-281 | A query's words can all be loaded exactly when no word of it fails to route. |
| RankerComprehensive.AnyOfMeaning | src/edu/nyu/cs/cs2580/rankers/RankerComprehensive.java:105-107 | Or-ing the per-token answers of a loop: it succeeds exactly when every answer does; it is true exactly when moreover some answer is true; otherwise it is the first exception. |
| RankerComprehensive.MisspeltMeaning | src/edu/nyu/cs/cs2580/rankers/RankerComprehensive.java:41-72 | A word is misspelt exactly when its corpus frequency is at most 1; a phrase exactly when some word of it is; a lookup that throws gives that exception. |
| RankerComprehensive.SpellingRoutes | src/edu/nyu/cs/cs2580/rankers/RankerComprehensive.java:105-107 | When the spelling loop finishes without an exception, every word of the query was routable. |
| RankerComprehensive.StopPositionsAscend | src/edu/nyu/cs/cs2580/rankers/RankerComprehensive.java:114-122 | The removal list ascends. |
| RankerComprehensive.StopPositionsExact | src/edu/nyu/cs/cs2580/rankers/RankerComprehensive.java:116-118 | A position is in the removal list exactly when its token is a stop word. |
| RankerComprehensive.SurvivorsCount | src/edu/nyu/cs/cs2580/rankers/RankerComprehensive.java:123-130 | Survivors and stop positions share out the tokens. |
| RankerComprehensive.SurvivorsAre | src/edu/nyu/cs/cs2580/rankers/RankerComprehensive.java:123-130 | The survivors are exactly the tokens that are not stop words. |
| RankerComprehensive.FilteredKeepsSomething | src/edu/nyu/cs/cs2580/rankers/RankerComprehensive.java:124 | Filtering never empties a non-empty query, and keeps no stop word unless all are. |
| RankerComprehensive.CutAt | src/edu/nyu/cs/cs2580/rankers/RankerComprehensive.java:127 | `list.remove(i)` removes one element. |
| RankerComprehensive.RemovalStep | src/edu/nyu/cs/cs2580/rankers/RankerComprehensive.java:125-129 | The k-th removal at its position less k takes out the k-th stop word. |
| RankerComprehensive.RemovalDone | src/edu/nyu/cs/cs2580/rankers/RankerComprehensive.java:125-130 | After the last removal the list is the survivors. |
| RankerComprehensive.AllRemoved | src/edu/nyu/cs/cs2580/rankers/RankerComprehensive.java:123-130 | Removing every listed position leaves exactly the non-stop tokens, in order. |
| RankerComprehensive.FilteredWithin | src/edu/nyu/cs/cs2580/rankers/RankerComprehensive.java:123-130 | The filtered tokens are tokens of the query; when some token survives, none of them is a stop word; filtering a query of words leaves words. |
| RankerComprehensive.StopPassKeeps | src/edu/nyu/cs/cs2580/rankers/RankerComprehensive.java:116-120 | Across the stop-word loop the indexer's token cache stays well formed, keeps its capacity, and gains no key other than a token of the query. |
| RankerComprehensive.StopPassClears | src/edu/nyu/cs/cs2580/rankers/RankerComprehensive.java:116-120 | After the stop-word loop no stop word of the query is left in the indexer's token cache. |
| RankerComprehensive.AfterLoadsKeeps | src/edu/nyu/cs/cs2580/index/IndexerInvertedCompressed.java:271-281 | Loading a run of words keeps the token cache well formed and of the same capacity, and adds no key other than one of those words. |
| RankerComprehensive.VisitsAscend | src/edu/nyu/cs/cs2580/rankers/RankerComprehensive.java:136-145 | Each document is visited at most once, in ascending order, after the start, and carries the score `score` gave it; the visits end at the first exception of `nextDoc` or of `score`. |
| RankerComprehensive.MinIndex | src/edu/nyu/cs/cs2580/rankers/RankerComprehensive.java:143 | What `poll` takes: a lowest score. |
| RankerComprehensive.BestKeepsAll | src/edu/nyu/cs/cs2580/rankers/RankerComprehensive.java:142-143 | With room for all, all are kept. |
| RankerComprehensive.QueueDone | src/edu/nyu/cs/cs2580/rankers/RankerComprehensive.java:149 | The final queue is a best `numResults` of all documents offered. |
| RankerComprehensive.QueueAdd | src/edu/nyu/cs/cs2580/rankers/RankerComprehensive.java:142 | Adding to a queue with room keeps it a best of what was seen. |
| RankerComprehensive.QueuePollCount | src/edu/nyu/cs/cs2580/rankers/RankerComprehensive.java:143 | Polling keeps every document either kept or dropped. |
| RankerComprehensive.QueuePollOrder | src/edu/nyu/cs/cs2580/rankers/RankerComprehensive.java:143 | Polling the lowest keeps every dropped score at or below every kept one. |
| RankerComprehensive.QueuePoll | src/edu/nyu/cs/cs2580/rankers/RankerComprehensive.java:142-143 | Adding to a full queue and polling keeps it a best of what was seen. |
| RankerComprehensive.RecordedMeaning | src/edu/nyu/cs/cs2580/rankers/RankerComprehensive.java:42-43 | After checking a run of tokens, the frequency map holds every checked token whose frequency lookup succeeded, at that frequency, and keeps every other earlier entry unchanged; a token whose lookup threw adds nothing. |
| RankerComprehensive.RankerComprehensive.constructor | src/edu/nyu/cs/cs2580/rankers/RankerComprehensive.java:27-39 | A new ranker with an empty query cache and no frequencies. |
| RankerComprehensive.RankerComprehensive.Statistic | src/edu/nyu/cs/cs2580/index/IndexerInvertedCompressed.java:60-71 | A statistic of the indexer is the index view's answer, exception included; for a word it is first loaded into the token cache, and an unroutable word throws. |
| RankerComprehensive.RankerComprehensive.ProcessWord | src/edu/nyu/cs/cs2580/rankers/RankerComprehensive.java:41-72 | Reports a spelling issue exactly when a word occurs at most once or some word of a phrase does, or throws what a frequency lookup throws; the frequency is recorded only when its lookup succeeds; a word is loaded into the indexer's token cache (the loads of spelling suggestions after a spelling issue are not modelled). |
| RankerComprehensive.RankerComprehensive.CheckSpelling | src/edu/nyu/cs/cs2580/rankers/RankerComprehensive.java:105-107 | The spelling loop gives the first exception of the tokens' lookups, or else whether some token is misspelt; the frequency map and the token cache are those of the tokens processed, up to and including the one that threw (suggestion loads for misspelt tokens not modelled). |
| RankerComprehensive.RankerComprehensive.StopTest | src/edu/nyu/cs/cs2580/rankers/RankerComprehensive.java:117-119 | One test of the stop-word loop: whether the token's document frequency exceeds the threshold, or the lookup's exception; the token cache has the word loaded and, if a stop word, removed. |
| RankerComprehensive.RankerComprehensive.MarkStopWords | src/edu/nyu/cs/cs2580/rankers/RankerComprehensive.java:113-122 | The removal list is the stop positions, or the loop throws the first exception of a document-frequency lookup; the token cache has each looked-at word loaded and then, if a stop word, removed. |
| RankerComprehensive.RankerComprehensive.RemoveStopWords | src/edu/nyu/cs/cs2580/rankers/RankerComprehensive.java:123-130 | The removal loop leaves exactly the non-stop tokens, in order. |
| RankerComprehensive.RankerComprehensive.LoadEach | src/edu/nyu/cs/cs2580/index/IndexerInvertedCompressed.java:248-281 | Loading the query's words in order succeeds exactly when every word routes; the cache is that of the words loaded up to the first failure. |
| RankerComprehensive.RankerComprehensive.NextScored | src/edu/nyu/cs/cs2580/rankers/RankerComprehensive.java:139-141 | One round of the document loop: the document `nextDoc` yields with its score, or nothing when a word fails to route, `nextDoc` or `score` throws, or the documents end; the cache gains only words of the query. |
| RankerComprehensive.RankerComprehensive.TopScored | src/edu/nyu/cs/cs2580/rankers/RankerComprehensive.java:133-148 | When every word routes, the queue ends as a best `numResults` of the documents `nextDoc` yields before the first exception of `nextDoc` or `score`; when one does not, the first load throws and the queue stays empty; the cache gains only words of the query. |
| RankerComprehensive.RankerComprehensive.FilterAndScore | src/edu/nyu/cs/cs2580/rankers/RankerComprehensive.java:112-148 | A document-frequency exception is passed on with the tokens untouched; otherwise the tokens are filtered, the result is a best `numResults` of the documents scored for them before the loop's first exception, and no stop word is left cached when some token survives. |
| RankerComprehensive.RankerComprehensive.RunQuery | src/edu/nyu/cs/cs2580/rankers/RankerComprehensive.java:98-162 | A null query throws; a cache hit returns the stored result; otherwise the first exception of the spelling loop is thrown, then a spelling issue, then the first exception of the stop-word loop; else the query is filtered, the result is a best `numResults`, cached under the query, and no stop word is left in the token cache. |
| DocIds.DocIdTable.constructor | src/edu/nyu/cs/cs2580/CorpusAnalyzerPagerank.java:36 | A new, empty name-to-id table. |
| DocIds.AssignKeeps | src/edu/nyu/cs/cs2580/index/Indexer.java:201-204 | Existing entries keep their ids, and the names added are exactly the eligible names not yet present. |
| DocIds.AssignFresh | src/edu/nyu/cs/cs2580/index/Indexer.java:201-204 | The ids handed out are exactly those from the start up to the new counter, one per new name, all distinct. |
| DocIds.AssignPrefixKeeps | src/edu/nyu/cs/cs2580/index/Indexer.java:200-206 | An id once assigned is kept for the rest of the listing. |
| DocIds.ListingOrder | src/edu/nyu/cs/cs2580/index/Indexer.java:200-206 | A name listed earlier than another, both new, gets the smaller id. |
| DocIds.FromEmpty | src/edu/nyu/cs/cs2580/index/Indexer.java:194-207 | From an empty map, the k distinct eligible names get exactly the ids `next`..`next+k-1`. |
| DocIds.InjectiveCount | src/edu/nyu/cs/cs2580/index/Indexer.java:194-207 | A map whose values fill a range, no two keys sharing one, has as many keys as the range has ids. |
| Slices.SliceInside | src/edu/nyu/cs/cs2580/index/Indexer.java:295-296 | Each slice lies inside the listing. |
| Slices.SlicesContiguous | src/edu/nyu/cs/cs2580/index/Indexer.java:289-298 | Each slice ends where the next one starts. |
| Slices.SlicesCover | src/edu/nyu/cs/cs2580/index/Indexer.java:289-298 | The first slice starts at 0 and the last ends at n. |
| Slices.SliceOf | src/edu/nyu/cs/cs2580/index/Indexer.java:289-298 | Every position belongs to exactly one slice. |
| Slices.LastSliceEmpty | src/edu/nyu/cs/cs2580/index/Indexer.java:289 | The last slice is empty exactly when d divides n. |
| Slices.Partition | src/edu/nyu/cs/cs2580/CorpusAnalyzerPagerank.java:60-64 | `n / d + 1` sublists. |
| Slices.PartitionFlatten | src/edu/nyu/cs/cs2580/CorpusAnalyzerPagerank.java:58-64 | The sublists together are the listing. |
| Slices.PartitionSizes | src/edu/nyu/cs/cs2580/CorpusAnalyzerPagerank.java:61 | No sublist is longer than `d`. |
| Indexer.SumAdd | src/edu/nyu/cs/cs2580/index/Indexer.java:143 | A new document adds its size to the sum of sizes. |
| Indexer.RunFault | src/edu/nyu/cs/cs2580/index/Indexer.java:136 | A worker ends with a null-pointer exception exactly when some non-directory file of its slice has no id. |
| Indexer.RunStopped | src/edu/nyu/cs/cs2580/index/Indexer.java:133-148 | Once a worker has ended, the rest of its slice changes nothing. |
| Indexer.RunIndexes | src/edu/nyu/cs/cs2580/index/Indexer.java:133-148 | A worker that runs to the end indexes exactly the parsed documents of its slice, each under its id with its size, and adds their sizes to its total. |
| Indexer.RunConcat | src/edu/nyu/cs/cs2580/index/Indexer.java:133-148 | Running a slice in two parts is running it whole; the totals add up. |
| Indexer.Plans | src/edu/nyu/cs/cs2580/index/Indexer.java:289-298 | One worker per slice. |
| Indexer.RunSlicesWhole | src/edu/nyu/cs/cs2580/index/Indexer.java:289-316 | When every file has an id, the workers together do what one loop over the listing does. |
| Indexer.ConstructMatchesLoad | src/edu/nyu/cs/cs2580/index/Indexer.java:314-316 | With distinct ids from an empty map, the term total of `constructIndex` is the sum `loadIndex` recomputes. |
| Indexer.OutputFileNumber | src/edu/nyu/cs/cs2580/index/Indexer.java:293 | Worker `i` writes a shard file whose number, as the organizer reads it, is `i`. |
| Indexer.Indexer.constructor | src/edu/nyu/cs/cs2580/index/Indexer.java:274 | A new indexer with empty maps and zero totals. |
| Indexer.Indexer.GenerateDocIDs | src/edu/nyu/cs/cs2580/index/Indexer.java:191-208 | Each name not yet present gets the next id from 1, in listing order. |
| Indexer.Indexer.Run | src/edu/nyu/cs/cs2580/index/Indexer.java:131-155 | `run` of one worker computes `RunFrom` and changes nothing else. |
| Indexer.Indexer.ConstructIndex | src/edu/nyu/cs/cs2580/index/Indexer.java:282-316 | `n / d + 1` workers named by their slice; the document count is the listing length; the map and total are those of the workers in order. |
| Indexer.Indexer.LoadIndex | src/edu/nyu/cs/cs2580/index/Indexer.java:249-254 | The document count is the map size and the term total the sum of the sizes. |
| IdGenerator.IdGenerator.constructor | src/edu/nyu/cs/cs2580/generator/IdGenerator.java:19-29 | The fields as given. |
| IdGenerator.IdGenerator.GenerateDocid | src/edu/nyu/cs/cs2580/generator/IdGenerator.java:35-52 | Each admitted file whose name is new gets the next id, in listing order. |
| IdGenerator.Generated | src/edu/nyu/cs/cs2580/generator/IdGenerator.java:37-50 | Existing entries are kept; new names belong to admitted files and get distinct ids in `[docid, docid + |filelist|)`. |
| CorpusAnalyzerPagerank.Bases | src/edu/nyu/cs/cs2580/CorpusAnalyzerPagerank.java:178-186 | One base per sublist. |
| CorpusAnalyzerPagerank.BasesDisjoint | src/edu/nyu/cs/cs2580/CorpusAnalyzerPagerank.java:178-186 | The id ranges of the generators are disjoint and lie within `[base, base + total)`. |
| CorpusAnalyzerPagerank.FlattenSize | src/edu/nyu/cs/cs2580/CorpusAnalyzerPagerank.java:58-64 | The sublist sizes add up to the listing's. |
| CorpusAnalyzerPagerank.AssignAllFresh | src/edu/nyu/cs/cs2580/CorpusAnalyzerPagerank.java:178-186 | The generators keep old entries and give new names distinct ids in `[base, base + total)`. |
| CorpusAnalyzerPagerank.PreparedIds | src/edu/nyu/cs/cs2580/CorpusAnalyzerPagerank.java:49-68 | From the empty table at 1, the ids are distinct and lie in `[1, 1 + |filelist|)`. |
| CorpusAnalyzerPagerank.CorpusAnalyzerPagerank.constructor | src/edu/nyu/cs/cs2580/CorpusAnalyzerPagerank.java:27-37 | `docid` starts at 1 with an empty table. |
| CorpusAnalyzerPagerank.CorpusAnalyzerPagerank.SplitFileList | src/edu/nyu/cs/cs2580/CorpusAnalyzerPagerank.java:55-64 | The split loop computes `Partition`. |
| CorpusAnalyzerPagerank.CorpusAnalyzerPagerank.GenerateId | src/edu/nyu/cs/cs2580/CorpusAnalyzerPagerank.java:173-195 | A pool of no threads throws before any work; otherwise each generator gets `docid`, which then moves on by its part's size. |
| CorpusAnalyzerPagerank.CorpusAnalyzerPagerank.Prepare | src/edu/nyu/cs/cs2580/CorpusAnalyzerPagerank.java:49-68 | The listing is split and numbered part by part. |

## Left out

- File and stream I/O: `RandomAccessFile`, readers and writers, Java serialization (`loadFilenameToDocID`, `flushDocIDToFile`, `load`), directory listing, renames and deletes. Files are modelled as values (sequences of lines or records), and directory listings are parameters.
- Thread pools and fork/join: the executors in `IndexOrganizer.mergeDocumentIndices`, `Indexer.constructIndex` and `CorpusAnalyzerPagerank.generateId` run one worker after the other. Interleavings on the shared maps are not modelled. `Executors.newFixedThreadPool(n)` throws `IllegalArgumentException` for `n <= 0`; `generateId` models that throw, but the pools of `mergeDocumentIndices` (IndexOrganizer.java line 140, reached with two or more files) and `constructIndex` (Indexer.java line 285) are not modelled, so neither is their throw.
- The frequent-phrase bookkeeping of `processDocument` (IndexerInvertedCompressed.java lines 115-182) is not part of this model. It only fills the static `phraseRank` table, which no query path reads.
- Floating-point work: PageRank iteration, score computation and normalisation, and the final sort of the ranker (RankerComprehensive.java lines 149-158 and 165 on). Scores are opaque `int`s given by the index view.
- The link graph, the spell checker's suggestion text (`correctSpelling`) and the autocomplete JSON side files of `splitIndex` are not part of this model. The JSON rewrite is modelled only where it changes the block name (see Findings).
- `HtmlParser`, `HtmlParser.clean` and `isValidDocument` are not part of this model. They are parameters: `clean` is a function on strings, validity is a function that may throw, and parsing a document gives a size or an exception.
- `HashSet` and `ConcurrentHashMap` iteration order is modelled as ascending id order where it matters (the phrase loop, the frequency loops). Any order gives the same results for the properties stated.
- RankerComprehensive.RankerComprehensive.RunQuery: the static `cachedQueries` is an instance field. The order in which `poll` breaks score ties is left open: `Best` lets any lowest score go. An exception from `nextDoc` or from `score` ends the loop with the queue as it stands. Scoring loads the query's words again; `nextDoc` has just loaded them, so those loads cannot throw. The score is an opaque value of the index view, or the exception it throws (such as the NullPointerException of `documentTermFrequency` for a document id with no document, IndexerInvertedCompressed.java line 87). The index view is assumed to move forward (`Ascends`).
- RankerComprehensive.RankerComprehensive.RunQuery: inherits the gap of `CheckSpelling`. When some token is misspelt, Java loads the spelling suggestions into the token cache before throwing `SpellingException`, so the cache ensures (`Within`) does not cover that path, and a suggestion that cannot be routed makes Java throw a NullPointerException where the model returns `Err(SpellingIssue)`.
- RankerComprehensive.RankerComprehensive.Statistic: the index view's statistics are functions of the token. The per-token postings map `indexFromToken` that the indexer fills on each load is not modelled; only the organizer's token cache is. The loads a phrase makes through `getDocumentsWithPhrase` are not modelled, so the cache contracts of `Statistic`, `StopTest`, `MarkStopWords`, `CheckSpelling`, `FilterAndScore` and `RunQuery` speak of queries made of words only.
- RankerComprehensive.RankerComprehensive.LoadEach: it stands for the `loadIndexFor` calls that `nextDoc` and `score` make through `getDocsWithToken`. A phrase is skipped, because the words a phrase loads are not modelled.
- RankerComprehensive.RankerComprehensive.ProcessWord: the suggestion text it appends is not modelled, only the spelling verdict and the recorded frequency. For a word of frequency at most 1, `correctSpelling` (RankerComprehensive.java lines 74-95) sorts the spelling service's suggestions with a comparator that calls `corpusTermFrequency` on both suggestions it compares, and each such call loads that suggestion through `loadIndexFor` into the token cache. Those loads are not modelled: which suggestions are loaded, how often and in which order depends on the foreign suggestion list and on the comparisons `Arrays.sort` makes. So the cache ensures (`Loaded`) holds only when no suggestion is loaded, that is when the verdict is no spelling issue; after a spelling issue the real cache also holds the suggestions, which can evict other entries. A suggestion that cannot be routed makes its load throw a NullPointerException, which `correctSpelling` does not catch (it catches `IOException` only); the model then reports the spelling issue where Java throws.
- RankerComprehensive.RankerComprehensive.CheckSpelling: inherits the gap of `ProcessWord`. Its cache ensures (`AfterLoads`) omits the suggestion loads made for every misspelt token, and a verdict of a spelling issue can in Java be a NullPointerException thrown from those loads instead. Both promises hold as stated when no token is misspelt.
- IndexFiles.RouteIsLastBelow: routing sorts by whole file name, as the source does. It agrees with "the last block at or below the token" only when the stems ascend along the sorted names, which holds when every token character sorts after '.'. `RouteStopsEarly` shows the case where they disagree.
- ShardMerge.SortByNumber: the comparator of `mergeDocumentIndices` returns `i1 - i2` in 32-bit arithmetic, which wraps when the numbers are far apart (for example 2147483647 and -1). The model compares the unbounded difference. The two agree whenever no difference overflows, which holds for the non-negative shard numbers the indexer writes. For suffixes where it overflows, the Java comparator is not a consistent order, and `Collections.sort` may order the shards differently or throw `IllegalArgumentException`.
- ShardMerge.Insert: compares shard numbers without the 32-bit wrap-around of `i1 - i2`, as for `SortByNumber`.
- ShardMerge.ShardOrder: the order it computes is the one for the unbounded comparison, as for `SortByNumber`. It agrees with the Java sort when no difference of two shard numbers overflows an `int`.
- ShardMerge.ShardOrderByNumber: ascending by number holds for the unbounded comparison. Shard numbers whose differences overflow an `int` are not modelled, as for `SortByNumber`.
- ShardMerge.MergeShards: the shard order it merges in is `ShardOrder`'s, so it matches `mergeDocumentIndices()` only when no difference of two shard numbers overflows an `int`.
- ShardMerge.FullIndexOfWritten: inherits the assumption of `MergeShards` about the shard order. It holds for the non-negative shard numbers the indexer writes.
- ShardMerge.MergeDocumentIndices: requires a non-empty file list. With no shard file the Java recursion splits an empty list forever.
- Indexer.Indexer.Run: requires `0 <= startIndex <= endIndex <= |files|`, as every slice of `constructIndex` is. A null `filenameToDocID` is treated as the empty map. `flushIndexToFile` is not modelled. The `long` overflow of the term total is not modelled.
- Indexer.Indexer.ConstructIndex: requires `docsPerThread > 0`. With `docsPerThread == 0` the division `_numDocs / docsPerThread` throws `ArithmeticException`. With a negative value the quotient truncates to zero or below, so the worker loop runs at most once, and that worker's end index `min(docsPerThread, n)` lies below its start 0, so its loop at Indexer.java line 133 indexes nothing. This case is not modelled. The page-rank load and `mergeAndSplit` are not part of it. The `int` overflow of `(i + 1) * d` is not modelled.
- CorpusAnalyzerPagerank.CorpusAnalyzerPagerank.Prepare: requires `docsPerThread > 0`. Zero throws `ArithmeticException`. A negative value is not modelled: the part loop then runs once or not at all, and a first part `subList(0, min(docsPerThread, n))` with its end below its start throws `IndexOutOfBoundsException`. `generateLinkGraph` and `_numDocs` are not modelled. The `int` overflow of `(i + 1) * d` is not modelled.
- CgiArguments.CgiArguments.constructor: a null query string is not modelled, and case mapping covers ASCII letters only, as for `JavaString.ToLower`.
- BlockSplit.StepCut: the length test counts characters, where `length()` counts UTF-16 code units. A token with characters outside the Basic Multilingual Plane (for example eleven emoji, 22 units) is skipped by Java and kept here when it has at most 20 characters.
- BlockSplit.SplitIndex: the `FileWriter dictionary` opened at IndexOrganizer.java line 240 is never flushed or closed, so in Java the letter tokens still in its buffer when `splitIndex` returns never reach `DICTIONARY_FILENAME`, which `Indexer` then hands to the spell checker (Indexer.java line 257). The model's dictionary is the sequence of `dictionary.write` calls, not the file's contents, and how much of the tail is lost depends on the writer's buffer size, which is not modelled.
- BlockSplit.WriteAllDictionary: states the `dictionary.write` calls made, not what reaches the file, as for `SplitIndex`.
- BlockSplit.LetterTokensMembers: speaks of the `dictionary.write` calls, not of the unflushed file, as for `SplitIndex`.
- BlockSplit.Append: `bytesWritten` is an `int` in Java (IndexOrganizer.java lines 243 and 294). The model adds without the 32-bit wrap-around. When the threshold lies within one record of 2147483647, Java's sum wraps negative and the block is never closed, where the model closes it. For thresholds below 2147483647 minus the largest record the two agree.
- BlockSplit.WriteRecord: inherits the unbounded `bytesWritten` of `Append`.
- BlockSplit.SplitMeaning: the rollover rule it states is `Append`'s, without the wrap-around of `bytesWritten`.
- InvertedIndex.IndexerInvertedCompressed.GetDocsWithTokens: a phrase's answer is tied to its phrase search call by call (`GetDocsWithToken` states the cache hit, the miss and the merge). The loop's own contract keeps of it only that the phrase's set is the answer's key set and lies within the phrase's entry; the cache and index states in between two phrases of one query are not restated.
- InvertedIndex.IndexerInvertedCompressed.NextDoc: inherits what `GetDocsWithTokens` states of a phrase's set.
- Ordered.AscendingNames: orders names by `JavaString.Less`, which compares code points, where `compareTo` compares UTF-16 code units. The two orders differ only for names with characters outside the Basic Multilingual Plane (a surrogate unit sorts below U+E000..U+FFFF, the code point above). The same holds for `JavaString.Less` wherever it orders tokens and block names.
- JavaString.ParseInt: accepts ASCII digits `0`-`9` only. Java's `Integer.parseInt` goes through `Character.digit` and also accepts other Unicode decimal digits (for example Arabic-Indic or fullwidth digits), so such text fails here where Java parses it.
- JavaString.ParseLong: accepts ASCII digits only, as for `ParseInt`; `Long.parseLong` accepts every Unicode decimal digit.
- JavaString.ToLower: maps ASCII letters only. Java's `toLowerCase()` uses the default locale (Turkish maps `I` to a dotless `ı`) and maps non-ASCII letters too. Its result can be longer than its argument, so the same-length promise holds only for the mapping modelled here.
- JavaString.ToUpper: maps ASCII letters only. Java's `toUpperCase()` depends on the default locale, maps non-ASCII letters, and can change the length (`"ß".toUpperCase()` is `"SS"`).
- `Character.isSpaceChar` is the fixed set of Unicode space separators (U+0020, U+00A0, U+1680, U+2000-U+200A, U+2028, U+2029, U+202F, U+205F, U+3000). Java's `Character.digit`, `isSpaceChar` and the case mappings are therefore covered only as far as these lists go.

## Findings

| source | as written | input that shows it | evidently intended | confidence | as-written member | corrected member |
|---|---|---|---|---|---|---|
| src/edu/nyu/cs/cs2580/index/IndexOrganizer.java:267 | When a lower-case token opens a new autocomplete file, `token` is reassigned to its JSON text `"tok",`. That text then names the new block (line 274) and keys the record (line 290). | A full index holding the single line `ab 1 1 0`: the block is `"ab",.idx`, its record is keyed `"ab",`, and `loadIndexFor("ab")` returns null. | The JSON text goes only to the autocomplete buffer. The block and the record keep the token itself, so every kept token is found again. | not executed | BlockSplit.AsWrittenLosesToken | BlockSplit.SplitThenLookup |
