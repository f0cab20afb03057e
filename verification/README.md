# DiskMule: a verified model of the control logic

DiskMule runs large language models whose weights stay on disk. Around the numeric kernels sits control
logic that makes things fast: caches, rings, incremental algorithms, two ways to parse the same array,
workers that keep sessions alive. Each of these must agree with a simpler thing it speeds up. This project
models that logic in Dafny 4.11 and proves the agreement. `dafny verify dfyconfig.toml` checks everything.

The numeric kernels (attention, norms, activations, the sampler's choice) are uninterpreted functions that
may fail; the Qwen recurrence is over real numbers. What the outside world does, such as a cancellation or
an I/O error, is a schedule that a run consumes, and every theorem holds for every schedule.

| files | what they model |
|---|---|
| `Symbols`, `SpmMerge`, `GemmaTokenizer`, `GemmaDecoding` | The Gemma tokenizer: the merge engine with its linked symbols and lazily cleaned queue against naive greedy merging; special tokens; what decoding gives back |
| `ByteMap`, `Pretokenizer`, `ByteBpe`, `TokenizerLoading` | The byte-level BPE tokenizers of Qwen and GLM, from loading to the round trip |
| `Utf8`, `Utf8Stream` | UTF-8 (section 3 of RFC 3629), lossy decoding, streaming of whole characters |
| `GlmForward`, `GlmDsa`, `TopK`, `GlmSession` | GLM sessions as folds over tokens and layers, with the DSA selection |
| `GemmaSession`, `QwenSession`, `Generation` | Gemma and Qwen sessions and stateless generation |
| `Recurrence` | Qwen's streaming convolution and in-place gated delta update |
| `Worker`, `WorkerProtocol` | The model worker over CPU sessions: what it answers, and every interleaving of clients and workers |
| `RingKv`, `FlatRows`, `GemmaMetal` | The Metal ring cache against the unbounded CPU cache, both on flat buffers; Gemma sessions on rings |
| `Lru`, `GlmExpertCache`, `StreamedExperts` | Least-recently-used residency by traces, and the two expert caches |
| `GgufReader`, `GgufIndex`, `GgufOverlap`, `GgufRoundTrip`, `TensorLayout` | The GGUF parser, its index, the overlap check, a writer, and where rows and experts lie |
| `GlmQuant` | The three detectors of GLM's integer layouts |

Each algorithm that changes state in place is a method or class proved against a specification function,
and the promises of the code are lemmas about that function. Texts are sequences of Unicode scalar values
and are paired with their encodings where the code works on bytes.

## Where the code does less than one might expect

These are properties that fail for some input. Each failure is proved, and so is the condition under which
the property does hold.

- A Metal session goes back to a prompt prefix by moving the ring positions only, both when it reuses the prefix
  and when a request that reused it fails. For windows of at least two, attention after the next append then reads
  slots of other positions unless the move empties the rings, changes nothing, the ring has not wrapped since it was
  last emptied, or it ends at most one entry below the highest position reached since (`RingKv.ReuseCanBeStale`;
  exactly when: `RingKv.TruncateIsFaithfulIffHarmless`). While every move back was such a one, a Gemma session on
  Metal answers as a new one does (`GemmaMetal.Gemma4MetalSession.Generate`). The rollback of a failed forward is
  always such a move (`RingKv.RollbackAfterAppend`).
- A Gemma or GLM session whose cache covers the whole prompt without its logits answers with an error where
  a new session answers: after answering a prompt it refuses every shorter beginning of it
  (`ShorterPromptIsRefused`, and on a concrete model `AnsweredThenRefused`, in both session modules; exactly
  when: `Generation.Stuck`, with what a session holds after an answer given by `Generation.Grown`).
- With DSA enabled and a shared layer 0, no GLM session gets past topk tokens
  (`GlmDsa.SharedFirstLayerStopsAtTopk`).
- The streamed expert cache keeps a slot's old label when an in-place read fails, so the next access to the
  old expert hits on what the read left (`StreamedExperts.TornSlotStillAnswers`; the bytes are right as long
  as no read into the slot failed since its last complete load).
- The GGUF overlap check depends on how an unstable sort breaks ties when an empty tensor shares its offset
  with a non-empty one (on a concrete file: `GgufRoundTrip.SortDecidesTiedFile`; exactly when:
  `GgufOverlap.AcceptedByEverySort`). Block types without dimensions make such tensors.
- Gemma's decoder reads a token spelled like a byte token as that byte, and the space mark as a space
  (`GemmaDecoding.ByteTokenIsNotGivenBack` and `GemmaDecoding.MarkIsNotGivenBack`), so an encoded text does not
  always come back, every stretch behind one space (exactly when: `GemmaDecoding.DecodeGivesBack`).
- The Metal classifier rejects one family of shapes that strict resolution accepts: rows of no columns
  without scales (`GlmQuant.MetalAcceptsWhatResolves`).
- In the other direction, it accepts packed rows of more than 256 columns with one scale each, and nothing else, that
  strict resolution refuses (`GlmQuant.MetalAcceptsWideRow`; exactly when: `GlmQuant.ResolvesWhatMetalAccepts`).
- A Qwen special token of kind 4 decodes to its own text exactly when its characters are in 33..126
  (`ByteMap.UnmapIsEncodeIffVisible`).

## Model

| member | source | states |
|---|---|---|
| SpmMerge.EncodeSpm | src/gemma4.rs:717-765 | The linked symbol list with its lazily cleaned queue emits exactly the tokens of naive greedy merging (always the best-scored adjacent pair, leftmost on ties), and pops at most 3(n-1) candidates for n characters. |
| SpmMerge.GreedyIsIrreducibleAndKeepsText | src/gemma4.rs:717-765 | The reference: merging neither loses nor invents text and stops only when no adjacent pair is a token. |
| SpmMerge.BestPairIs | src/gemma4.rs:767-783 | The pair merged next is the one whose joined text is a token of the highest score, leftmost among equals. |
| SpmMerge.EmitIs | src/gemma4.rs:785-795 | A symbol that is a token becomes its ID; any other becomes the token of each of its bytes in turn, the unknown token where a byte has none. |
| SpmMerge.AcceptedIsCurrent | src/gemma4.rs:738-744 | A candidate that passes the staleness test (both symbols live, linked, byte lengths adding up) denotes a current adjacent pair and its text. |
| SpmMerge.CurrentIsAccepted | src/gemma4.rs:738-744 | Conversely, the candidate of a current pair always passes the test. |
| SpmMerge.SameLengthSameEnd | src/gemma4.rs:738-744 | Two stretches from the same start with equal byte lengths end at the same character: why comparing byte lengths is enough to detect staleness. |
| SpmMerge.GreatestIsBest | src/gemma4.rs:823-827 | The greatest candidate of a complete queue is the reference's best pair: the ordering is score first, then the smaller left index. |
| SpmMerge.LinkedAfterMerge | src/gemma4.rs:745-752 | Joining two symbols in place keeps every link, every text and the live flags consistent with the shorter list. |
| SpmMerge.CompleteAfterMerge | src/gemma4.rs:745-758 | After a merge every mergeable current pair still has a live candidate once the two new neighbour pairs are queued. |
| SpmMerge.StaleIsNotNeeded | src/gemma4.rs:738-744 | Dropping a candidate that fails the test leaves the queue complete. |
| SpmMerge.QueueSpmMerge | src/gemma4.rs:767-783 | A pair is queued exactly when its joined text is a token, with that token's score and the joined byte length. |
| SpmMerge.EmitLinked | src/gemma4.rs:760-764 | Walking the links emits every live symbol once, in order. |
| GemmaTokenizer.EncodeText | src/gemma4.rs:657-688 | Scanning character by character yields the leftmost-longest split at special tokens: raw stretches hold no special token anywhere, each cut is the longest special at its place, and what a stretch contributes is the greedy merge of one space mark followed by the stretch with a mark for every space. |
| GemmaTokenizer.MatchSpecial | src/gemma4.rs:665-672 | Searching only the group of the first byte, longest first, finds the longest special token that starts here, or proves there is none. |
| GemmaTokenizer.ByteTokenSpelling | src/gemma4.rs:994-1001 | Exactly the texts that stand for a byte: two hexadecimal digits of either case, or a plus sign and one digit. |
| GemmaDecoding.DecodeGivesBack | src/gemma4.rs:690-707 | With a token for every byte and for the space mark, decoding gives back every special token as it is and every stretch, character by character, behind one space if and only if no token of the text is spelled like a byte token and neither the stretches nor the special tokens contain the space mark. |
| GemmaDecoding.ByteTokenIsNotGivenBack | src/gemma4.rs:690-715 | A concrete tokenizer merges the text <0x41> into the token of that spelling and decodes it to the letter A. |
| GemmaDecoding.MarkIsNotGivenBack | src/gemma4.rs:690-707 | The text that is one space mark comes back as two spaces, with every such tokenizer. |
| GemmaDecoding.PlainTextIsReadable | src/gemma4.rs:709-715 | A text without the mark in which nothing reads like a byte token always meets that condition, if the special tokens do. |
| GemmaDecoding.ByteTokenIsOld | src/gemma4.rs:709-715 | Normalization never creates something that parses as a byte token. |
| GemmaDecoding.SymbolDecodes | src/gemma4.rs:785-795 | Both ways of emitting a merged symbol, as a token or byte by byte, decode to the symbol's text; a token spelled like a byte token contributes fewer characters wherever it stands. |
| GemmaDecoding.SkippingIsFiltering | src/gemma4.rs:690-707 | Decoding that skips special tokens, as every reply is decoded, is decoding the other tokens. |
| GemmaDecoding.SkippingGivesStretches | src/gemma4.rs:690-707 | As long as no stretch was merged into a special token, it gives back every stretch behind one space if and only if no token of a stretch is spelled like a byte token and no stretch contains the space mark. |
| Utf8.LossyOfEncoded | src/gemma4.rs:706 | Decoding (section 3 of RFC 3629) undoes encoding for every text. |
| Utf8.DecodedIffValid | src/gguf.rs:1107-1108 | A byte string decodes strictly exactly when it is well-formed to its end, and then it is the encoding of the decoded text. |
| Utf8.LossyConcat | src/qwen35/cpu.rs:774-795 | Lossy decoding can be cut at a well-formed boundary. |
| Utf8.OneByteMore | src/gemma4.rs:706 | One byte in front of any bytes, well-formed or not, adds at most one decoded character. |
| Utf8Stream.DrainValidUtf8 | src/qwen35/cpu.rs:774-795 | One drain returns the text of the well-formed prefix and leaves the rest, or flushes everything at the end. |
| Utf8Stream.DrainSplits | src/glm52/cpu.rs:808-829 | After a non-final drain what is left is empty or has no valid non-empty prefix. |
| Utf8Stream.Stream | src/qwen35/cpu.rs:227-283 | For every sequence of token byte strings, valid or not, the emitted pieces are non-empty and concatenate to the lossy decoding of all bytes. |
| ByteMap.ByteToUnicode | src/qwen35/tokenizer.rs:492-510 | The byte table: visible bytes stand for themselves, the others take consecutive characters from 256 on. |
| ByteMap.ByteTable | src/qwen35/tokenizer.rs:492-510 | The whole table: 33..126, 161..172 and 174..255 stand for themselves, the others go from 256 to 323 in order. |
| ByteMap.Injective | src/glm52/tokenizer.rs:599-617 | No two bytes share a character. |
| ByteMap.UnmapUndoesMap | src/glm52/tokenizer.rs:330-339 | Mapping bytes to characters and back is the identity. |
| ByteMap.UnmapIsEncodeIffVisible | src/qwen35/tokenizer.rs:183-209 | Reading a token text through the byte table gives its own UTF-8 bytes if and only if all its characters are in 33..126: the exact condition on kind-4 special tokens. |
| Pretokenizer.PretokenRanges | src/qwen35/tokenizer.rs:373-461 | The ranges partition the text into non-empty contiguous pieces; each is the greedy match of the first applicable rule. |
| Pretokenizer.NextEnd | src/glm52/tokenizer.rs:475-569 | Every step matches one of the rules; the one-character fallback is never reached. |
| Pretokenizer.PieceIsUnique | src/glm52/tokenizer.rs:475-569 | The order of the rules leaves no choice: at most one piece starts at a place. |
| Pretokenizer.TokenizedIsUnique | src/qwen35/tokenizer.rs:373-461 | So a text is split in one way only. |
| Pretokenizer.PiecesArePrefix | src/qwen35/tokenizer.rs:463-474 | Concatenated, the pieces are the text. |
| Pretokenizer.RangeBytes | src/qwen35/tokenizer.rs:229-234 | A byte range selects exactly the encoding of the characters of its piece. |
| ByteBpe.FindBest | src/glm52/tokenizer.rs:415-430 | The scan finds the pair of lowest rank, leftmost on ties, by merge table or by vocabulary ID. |
| ByteBpe.BestByTable | src/qwen35/tokenizer.rs:253-270 | With a merge table the pair joined next is the listed pair of the lowest rank, leftmost on ties. |
| ByteBpe.BestById | src/glm52/tokenizer.rs:415-430 | Without one it is the pair whose joined text is the token of the lowest ID. |
| ByteBpe.MergedIsIrreducibleAndKeepsText | src/qwen35/tokenizer.rs:253-270 | Merging keeps the text and ends with no pair that has a rank. |
| ByteBpe.EncodePiece | src/qwen35/tokenizer.rs:236-280 | A piece becomes its own token if it is one, and otherwise the tokens of the merged symbols; it fails exactly when a symbol has no token. |
| ByteBpe.NextSpecial | src/qwen35/tokenizer.rs:147-158 | The next special token is the leftmost, and the longest of those. |
| ByteBpe.NextSpecialIsUnique | src/glm52/tokenizer.rs:194-200 | With distinct special texts the choice does not depend on how the table is sorted. |
| ByteBpe.EncodeChunk | src/glm52/tokenizer.rs:394-399 | A chunk is encoded piece by piece; it fails exactly when a piece does. |
| ByteBpe.EncodeText | src/qwen35/tokenizer.rs:143-169 | The text is split leftmost-longest at special tokens; the result is that of encoding the segments in order, and the loop ends because special texts are not empty. |
| ByteBpe.AsciiBytesAreCharacters | src/qwen35/tokenizer.rs:183-209 | An ASCII text that occurs in the bytes of a string occurs in the string: no special token can hide in a chunk that has none. |
| ByteBpe.DecodeUndoesEncode | src/glm52/tokenizer.rs:255-311 | Whenever encoding succeeds, decoding the IDs with specials included gives back the text's UTF-8 bytes. |
| TokenizerLoading.FromRaw | src/glm52/tokenizer.rs:128-253 | The GLM loader accepts exactly the files of the supported kind with small distinct IDs, added tokens that have new names and either keep their vocabulary ID or take an unused one, and merges that all split; its table ends at the largest ID, and the result meets everything the round trip relies on. |
| TokenizerLoading.FromGguf | src/qwen35/tokenizer.rs:53-142 | The Qwen loader accepts exactly the vocabularies with every key, as many kinds as texts, distinct texts, merges that all split and an end token inside the vocabulary; the result meets what the round trip relies on. |
| TokenizerLoading.ReadMerges | src/glm52/tokenizer.rs:203-239 | Every listed pair gets the rank of its last listing; the first merge that does not split is the one refused. |
| TokenizerLoading.SidesAre | src/glm52/tokenizer.rs:203-239 | A merge line gives two sides exactly when it is them around its first space and neither is empty. |
| TokenizerLoading.SameIdSameText | src/glm52/tokenizer.rs:170-193 | In an accepted vocabulary no two added tokens share an ID. |
| TokenizerLoading.MaskUndefinedLogits | src/glm52/tokenizer.rs:369-377 | Exactly the IDs without a token are ruled out; a model with fewer rows than IDs is refused and left unchanged. |
| GgufReader.BoundedReader.ReadString | src/gguf.rs:1083-1109 | Reads a length-prefixed string within the limit and the file, strict about UTF-8, and moves the position past it. |
| GgufReader.BoundedReader.ReadArray | src/gguf.rs:1050-1065 | Reads exactly the bytes at the position, or reports overflow or truncation. |
| GgufReader.ReadMetadataArray | src/gguf.rs:799-926 | Captures an array element by element within the element, byte and string budgets. |
| GgufReader.SkipMetadataValue | src/gguf.rs:953-986 | Skips one element: booleans and strings are still checked. |
| GgufReader.ReadMetadataValue | src/gguf.rs:736-797 | Decodes one value of any kind, capturing or skipping array bodies. |
| GgufReader.FixedSizesAreRead | src/gguf.rs:736-797 | For every file, place and kind of fixed size: the value read is the little-endian number of the one, two, four or eight bytes there, or the flag, and reading ends right behind them; it fails exactly when they are not all in the file or are no flag. |
| GgufReader.OtherKindsAreRefused | src/gguf.rs:788-795 | Every other kind is refused, an array in an array by its own error. |
| GgufReader.SkipFollowsItem | src/gguf.rs:953-986 | The table of sizes that skipping uses agrees with the readers of the kinds: both accept the same bytes, stop at the same place and report the same error. |
| GgufReader.CaptureIffSkipWithinBudget | src/gguf.rs:799-926 | An array can be captured if and only if it can be skipped, its kind is known and the bytes it takes in the file, 16 more for each string, are within the limit; both then end at the same byte. |
| GgufReader.ValueLockstep | src/gguf.rs:736-797 | Whatever is accepted with its array captured is accepted without, up to the same byte and equal but for the body. |
| GgufIndex.IndexLockstep | src/gguf.rs:460-592 | Up to the overlap check, a file parsed with captured arrays parses without, to the same index except array bodies. |
| GgufIndex.InspectionLockstep | src/gguf.rs:460-602 | Any byte string accepted with captured arrays is accepted by plain inspection, which agrees on everything except array bodies; one refused only for overlap is refused the same way. |
| GgufIndex.ReadIndex | src/gguf.rs:460-602 | The parser's answer, overlap error included, for whatever sort it uses; if that sorts by offset, the tensors of every accepted file are pairwise apart. |
| GgufIndex.IndexedIsSound | src/gguf.rs:510-592 | Every parsed index has distinct tensor names; each tensor has the size its type and shape need and an aligned range inside the file. |
| GgufIndex.ScanProvesApart | src/gguf.rs:1019-1033 | Comparing neighbours of the sorted list only is enough to prove every two tensors disjoint. |
| GgufOverlap.ScanIffEmptyFirst | src/gguf.rs:1019-1033 | For one order of disjoint tensors, the scan passes if and only if no non-empty tensor stands in front of one that starts at the same byte. |
| GgufOverlap.EveryOrderPassesIffNoTie | src/gguf.rs:1019-1033 | The scan passes in every order by offset if and only if the tensors are disjoint and no empty one starts where a non-empty one starts; it passes in some order if and only if they are disjoint. |
| GgufOverlap.AcceptedByEverySort | src/gguf.rs:510-602 | A parsed file is accepted whatever its sort does with ties exactly under that condition. |
| GgufOverlap.SortDecidesTies | src/gguf.rs:1019-1033 | With disjoint tensors and a tie, one sort by offset makes the parser accept the file and another refuse it. |
| GgufOverlap.VerdictDependsOnTies | src/gguf.rs:1019-1033 | With an empty tensor at another's offset, one order an unstable sort may choose passes and the other fails. |
| GgufIndex.ScalarOfBlockedTypeIsEmpty | src/gguf.rs:988-1009 | Such empty tensors exist: a block-quantized tensor without dimensions has no bytes. |
| GgufIndex.AlignUpIsLeast | src/gguf.rs:1011-1017 | The data section starts at the least multiple of the alignment that is not inside the tables. |
| GgufIndex.AlignUpFailsIffNothingFits | src/gguf.rs:1011-1017 | Rounding up fails if and only if no multiple from the value on fits in 64 bits. |
| GgufIndex.AlignmentIs | src/gguf.rs:500-507 | The alignment is 32, or the U32 power of two under its key; anything else there is refused. |
| GgufIndex.ElementsIsProduct | src/gguf.rs:988-993 | Multiplying the dimensions with a check at every step fails exactly when the number of elements leaves 64 bits. |
| GgufIndex.LocateRefuses | src/gguf.rs:550-590 | A tensor is placed exactly when it is aligned and ends inside the file; misalignment is reported before overflow, and overflow before leaving the file. |
| GgufRoundTrip.RoundTrip | tests/qwen35_cpu_reference.rs:192-257 | Reading the written form of a metadata and tensor list, with the writer's own sizes for every kind, returns it, whatever follows the tables and however the sort breaks ties, if and only if its tensors are disjoint and no empty one starts where a non-empty one starts; arrays that were not asked for come back as type and length. |
| GgufRoundTrip.SortDecidesTiedFile | src/gguf.rs:988-1033 | A concrete file of 128 bytes whose acceptance the sort decides. |
| GgufRoundTrip.IndexReadsBack | tests/qwen35_cpu_reference.rs:192-257 | The tables of every written list parse back to it, before the overlap check. |
| GgufRoundTrip.EntriesReadBack | src/gguf.rs:485-499 | The metadata table reads back entry by entry. |
| GgufRoundTrip.RawsReadBack | src/gguf.rs:510-549 | The tensor table reads back entry by entry. |
| TensorLayout.ExpertSlicesAgree | src/gemma4/metal.rs:899-923 | For every expert of every rank-three tensor of an accepted index, the CPU slice, the mapped slice and the streamed range are computed without error and coincide, inside the tensor. |
| TensorLayout.SameExpertBytes | src/cpu.rs:474-509 | The CPU slices the tensor and the others slice the file, and the bytes are the same. |
| TensorLayout.ExpertsTile | src/cpu.rs:484-509 | Every byte of the tensor belongs to exactly one expert. |
| TensorLayout.ExpertBytes | src/gemma4/metal.rs:1101-1117 | The expert size from rows and columns equals the byte length divided by the expert count. |
| TensorLayout.RowsTile | src/cpu.rs:426-452 | The rows of a matrix lie in it back to back. |
| TensorLayout.OutsideIsRefused | src/cpu.rs:426-509 | Rows and experts outside the tensor have no slice. |
| TensorLayout.ExpertsShareEvenly | src/gemma4/metal.rs:1101-1117 | A tensor is split among experts exactly when the same number of bytes for each makes it up. |
| TensorLayout.DecodersConsumeRows | src/cpu.rs:318-346 | For each type the CPU decodes, a row of the length its type asks for runs out of bytes exactly when it runs out of elements. |
| TensorLayout.OffsetsFit | src/expert.rs:207-228 | The offset of a streamed expert is refused exactly when it leaves 64 bits. |
| TensorLayout.ReadTensorAt | src/gguf.rs:694-722 | A positional read is refused exactly when it leaves the tensor; otherwise the destination gets the file's bytes there. |
| Lru.ResidentIffFewOthersSince | src/glm52/expert.rs:183-256 | An expert is resident exactly when it was acquired and fewer than k other distinct experts were acquired since. |
| Lru.MoreSlotsHoldMore | src/expert.rs:166-229 | On one trace k slots hold a prefix of what more slots hold. |
| Lru.RecentIsTraceWithoutRepeats | src/glm52/expert.rs:183-256 | The recency list has exactly the experts of the trace, each once. |
| Lru.HitRealises | src/glm52/expert.rs:196-206 | Stamping the hit slot with the new clock keeps the slot tags in step with the trace. |
| Lru.MissRealises | src/expert.rs:194-228 | Filling the chosen victim does too; the victim is occupied exactly when the layer is full. |
| Lru.ChooseVictim | src/glm52/expert.rs:209-214 | The victim is an empty slot if there is one, else the least recently used, lowest index first. |
| Lru.NoExpertTwice | src/glm52/expert.rs:183-256 | No expert occupies two slots of a layer. |
| Lru.OccupiedIffResident | src/glm52/expert.rs:198-206 | A lookup finds a slot exactly when the trace says the expert is resident. |
| GlmExpertCache.Glm52ExpertCache.Acquire | src/glm52/expert.rs:183-256 | All statistics, the trace and the slot contents after one acquire, for every I/O error and cancellation; a failed load leaves every slot as it was. |
| GlmExpertCache.Glm52ExpertCache.WithExpert | src/glm52/expert.rs:157-181 | The callback receives exactly the three tensors stored for the layer and expert, and runs exactly when the expert is resident or loads and nothing cancels it; trace, statistics, failed loads and other layers afterwards. |
| GlmExpertCache.Glm52ExpertCache.Run | src/glm52/expert.rs:157-256 | Over any run of accesses the traces are a function of the accesses and their faults, each access answers exactly when the trace so far serves it and then with the stored tensors, and without failing loads occupied slots equal misses minus evictions. |
| GlmExpertCache.Glm52ExpertCache.LoadExpert | src/glm52/expert.rs:291-368 | The three loads into fresh memory succeed exactly when all tensors are loadable and nothing interrupts. |
| GlmExpertCache.LoadTensor | src/glm52/expert.rs:291-368 | What is counted while a tensor is read, one read and its bytes and the same for its scales, is its size once resident; the error names what is wrong with it. |
| GlmExpertCache.TotalUpdate | src/glm52/expert.rs:282-287 | Replacing one slot changes the resident bytes, summed over all slots, by exactly the difference. |
| StreamedExperts.ExpertCache.Acquire | src/expert.rs:166-229 | The state after one acquire that reads in place, failed ones included: which slot was used (on a miss the least recently used), what its buffers hold, which slots are torn, all statistics and the trace. |
| StreamedExperts.ExpertCache.WithExpert | src/expert.rs:138-164 | The callback runs on a pinned slot labelled with the expert; it sees exactly the stored bytes unless a read into that slot failed since its last complete load, and a failed read tears no other slot. |
| StreamedExperts.ExpertCache.Miss | src/expert.rs:194-228 | Between accesses nothing is pinned, so there is always a victim and the all-pinned error is never raised. |
| StreamedExperts.Victim | src/expert.rs:195-202 | The replacement scan returns nothing exactly when every slot is pinned. |
| StreamedExperts.StoredIsTheExpert | src/gemma4/metal.rs:181-199 | For every accepted file and every expert, the two stretches the cache reads are in the file and are the bytes the CPU multiplies by. |
| StreamedExperts.TornSlotStillAnswers | src/expert.rs:207-228 | The limit of the guarantee, on a concrete run: after a failed in-place read the old label still hits and serves what the read left. |
| RingKv.OwnedIffAboveFloor | src/metal.rs:1219-1267 | Over every run of appends and truncates, a slot still belongs to its position exactly when the position is above a computable floor. |
| RingKv.FaithfulWindow | src/metal.rs:1270-1322 | A ring whose visible slots are owned shows exactly the last min(position, capacity) entries of the unbounded cache. |
| RingKv.TruncateIsFaithfulIffHarmless | src/metal.rs:275-277 | Attention after a truncate and an append sees the right entries if and only if the truncate was harmless: it emptied the cache, moved nothing, nothing had been overwritten yet, or it ended within one entry of the highest position reached. |
| RingKv.DisciplinedAppendIsFaithful | src/metal.rs:1219-1322 | A run whose truncates since the cache was last emptied were all harmless is faithful at its next append. |
| RingKv.RollbackIsHarmless | src/gemma4/metal.rs:561-580 | In append-only runs the rollback after a failed forward always meets the condition. |
| RingKv.RollbackAfterAppend | src/gemma4/metal.rs:561-580 | After every run whose truncates were harmless, reused prefixes included, taking back a failed append is harmless and restores the entries. |
| RingKv.ReuseIsFaithfulIffHarmless | src/gemma4/metal.rs:230-253 | Reusing a prompt prefix in a session is faithful if and only if the truncate to that prefix is harmless. |
| RingKv.ReuseCanBeStale | src/gemma4/metal.rs:230-253 | A concrete session where it is not: four cached tokens, a window of two, one reused token. |
| RingKv.MetalKvLayer.Append | src/metal.rs:1219-1267 | Writes the entry into its slot of both flat buffers, after the position, context and width checks, and leaves every other slot alone. |
| RingKv.MetalKvLayer.Truncate | src/metal.rs:275-277 | Only the position moves. |
| RingKv.MetalKvLayer.Visible | src/metal.rs:1270-1322 | The rows attention reads, oldest first, are the last entries of the full cache whenever the run is faithful. |
| RingKv.LayerKv.Append | src/gemma4/cpu.rs:842-864 | The CPU cache accepts an entry exactly at its end and with the right width, and stores it as one more row. |
| RingKv.LayerKv.Truncate | src/gemma4/cpu.rs:866-870 | Cuts both flat vectors to whole rows. |
| RingKv.LayerKv.Attended | src/gemma4/cpu.rs:900-944 | Reads the last window rows, or all of them. |
| RingKv.BackendsAttendAlike | src/metal.rs:1196-1217 | With the same history a faithful ring and the CPU cache attend to the same rows in the same order. |
| GemmaMetal.ReadsAsTheCpu | src/gemma4/metal.rs:561-720 | After such a run every layer's attention reads exactly the rows the CPU cache attends to, for every window and context. |
| GemmaMetal.Gemma4MetalSession.RunLayers | src/gemma4/metal.rs:604-720 | A forward over all rings computes what the CPU forward computes; a failure leaves some rings one entry longer. |
| GemmaMetal.Gemma4MetalSession.ForwardToken | src/gemma4/metal.rs:530-582 | A failed forward restores every list, and the rings are exactly as sound as before. |
| GemmaMetal.Gemma4MetalSession.ResetTo | src/metal.rs:275-277 | Moving back keeps the rings sound exactly when it empties them, or finds them sound and is harmless for every layer. |
| GemmaMetal.Gemma4MetalSession.Generate | src/gemma4/metal.rs:217-360 | While moving back to the reused prefix is sound, every answer of a Metal session is that of a new session and every uninterrupted request gets it; where no window is shorter than the context this is always so. |
| GlmForward.ForwardAppends | src/glm52/cpu.rs:462-524 | One forward adds one row to every layer and changes no earlier row. |
| GlmForward.TruncateReplay | src/glm52/cpu.rs:874-884 | Causality: truncating the state of a token sequence is the state of its prefix, including the DSA selection. |
| GlmForward.ReplayShape | src/glm52/cpu.rs:462-524 | All lists of all layers and the history have one entry per token. |
| GlmForward.AttendsToSelected | src/glm52/cpu.rs:600-621 | What a layer attends with is computed from exactly the latent and rope rows of the selected positions, in order, or from the rows of all positions, the newest included. |
| GlmDsa.DsaSelection | src/glm52/cpu.rs:572-600 | With DSA enabled and layer 0 full, the missing-selection error is never raised; below topk every layer attends everywhere, from there on to exactly topk ascending positions; a full layer uses its best topk and a shared layer those of the nearest full layer before it; and the rows attention is given are those of the positions. |
| GlmDsa.WithoutSidecar | src/glm52/cpu.rs:557-600 | Without DSA, over every run, every layer attends to all rows and no selection is ever missing. |
| GlmDsa.SharedFirstLayerStopsAtTopk | src/glm52/cpu.rs:587-594 | The condition is needed: with a shared layer 0 no run gets past topk tokens. |
| TopK.SelectIsTopK | src/glm52/cpu.rs:696-708 | Sorting by score and then position, cutting at topk and sorting back gives the topk best positions in ascending order. |
| TopK.TopKIsUnique | src/glm52/cpu.rs:696-708 | That set is determined by the scores alone. |
| GlmSession.Glm52CpuSession.SelectPositions | src/glm52/cpu.rs:658-709 | The selection, with cancellation checked for every cached position. |
| GlmSession.Glm52CpuSession.RunAttention | src/glm52/cpu.rs:527-635 | Appends to the layer in place and attends to exactly the rows of the selected positions; on failure the appended rows are all that changed. |
| GlmSession.Glm52CpuSession.ForwardToken | src/glm52/cpu.rs:420-460 | A failure at any point of any layer, or a cancellation, is exactly a no-op on the session. |
| GlmSession.Glm52CpuSession.Truncate | src/glm52/cpu.rs:874-884 | After a truncate the state is that of the shorter token sequence, ready for the next forward. |
| GlmSession.Glm52CpuSession.Run | src/glm52/cpu.rs:420-524 | After any mix of forwards, failures, cancellations and truncates the state, DSA selection and history included, is that of a new session fed the tokens that remain. |
| GlmSession.Glm52CpuSession.Generate | src/glm52/cpu.rs:222-378 | Every answer equals that of a new session, and leaves exactly the prompt and the tokens fed back cached with logits; on an error the session is back at the longest common prefix, with its logits if nothing was dropped; a refused request changes nothing; the only extra failure is a prompt covered by the cache without its logits. |
| GlmSession.ShorterPromptIsRefused | src/glm52/cpu.rs:222-278 | On every model, a session that answered a prompt refuses every shorter beginning of it. |
| GlmSession.AnsweredThenRefused | src/glm52/cpu.rs:273-278 | That failure is reachable: a session that answered [0, 1] refuses [0], which a new session answers. |
| GlmSession.PrefillFromPrefix | src/glm52/cpu.rs:273-294 | Prefilling the rest of a prompt from its cached prefix is prefilling the prompt. |
| GemmaSession.TruncateReplay | src/gemma4/cpu.rs:815-870 | Truncating the caches of a token sequence gives those of its prefix. |
| GemmaSession.KvCache.ForwardToken | src/gemma4/cpu.rs:380-421 | A failed forward leaves every layer as it was. |
| GemmaSession.Gemma4CpuSession.Generate | src/gemma4/cpu.rs:85-224 | Every answer equals stateless generation and leaves exactly the prompt and the tokens fed back cached with logits; on an error the session is back at the longest common prefix, with its logits if nothing was dropped; on every exit all layers hold exactly the fold over the tokens, and held logits are those of the tokens. |
| GemmaSession.ShorterPromptIsRefused | src/gemma4/cpu.rs:85-148 | On every model, a session that answered a prompt refuses every shorter beginning of it. |
| GemmaSession.AnsweredThenRefused | src/gemma4/cpu.rs:143-148 | A session that answered [0, 1] refuses [0], which stateless generation answers. |
| GemmaSession.GenerateStateless | src/gemma4/cpu.rs:245-328 | Stateless generation computes the same answer from an empty cache. |
| Generation.CommonPrefixLength | src/gemma4/cpu.rs:729-734 | The longest common prefix. |
| Generation.AnswerIsUnique | src/gemma4/cpu.rs:176-224 | The law of a reply: each token is what the selector picks, from its state, out of the logits of everything before it, is within the bound and no stop token; it ends with the budget, a stop token or the first failure. At most one answer obeys it. |
| GemmaSession.FreshIsTheAnswer | src/gemma4/cpu.rs:245-328 | On every model, the answer of a new session is that answer. |
| GlmSession.FreshIsTheAnswer | src/glm52/cpu.rs:222-378 | So is that of a new GLM session, with masked logits and the bytes of the tokens as its text. |
| QwenSession.FreshIsTheAnswer | src/qwen35/cpu.rs:178-283 | So is that of a new Qwen session, with the vocabulary size as the bound. |
| QwenSession.ClearedIsNew | src/qwen35/cpu.rs:838-852 | Clearing every layer in place gives the state of a new session. |
| QwenSession.Qwen35CpuSession.Generate | src/qwen35/cpu.rs:154-176 | Every answer equals that of a new session and leaves exactly the prompt and the tokens fed back cached; every job that nothing interrupts gets it: whatever cannot be reused is cleared and rebuilt. |
| QwenSession.Qwen35CpuSession.ForwardToken | src/qwen35/cpu.rs:345-443 | One token through every layer; a failure marks the state as unusable rather than rolling back. |
| Recurrence.StreamingConvolution.Push | src/qwen35/cpu.rs:609-628 | After any number of tokens the shifted buffer holds the last kernel-1 projections, zero-padded, and every output is the full causal convolution. |
| Recurrence.PastRowsShift | src/qwen35/cpu.rs:622-628 | Shifting by one row and storing the newest is the buffer of the longer history. |
| Recurrence.UpdateHead | src/qwen35/cpu.rs:898-923 | Decaying and correcting a head's state in place, column by column, equals the matrix rule, and the output is the query of the updated state. |
| Recurrence.HalfwayStep | src/qwen35/cpu.rs:904-914 | The prediction for a column does not see the columns corrected before it. |
| Recurrence.DeltaState.Update | src/qwen35/cpu.rs:880-925 | Over every run and for every head count, each head's state is the fold of the delta rule over its inputs. |
| Recurrence.DeltaState.GatedDeltaUpdate | src/qwen35/cpu.rs:880-897 | Value heads share key heads cyclically. |
| GlmQuant.InferredIsTheOnlyResolution | src/glm52/quant.rs:87-125 | When inference from the columns succeeds, strict resolution accepts its row count with its layout and no other row count. |
| GlmQuant.ResolutionFits | src/glm52/quant.rs:152-183 | Strict resolution accepts exactly a byte for every element with a scale for every row, or else half a byte with the smallest group size that explains the scales. |
| GlmQuant.InferenceFits | src/glm52/quant.rs:87-125 | Inference from the columns succeeds exactly when one row count and one layout fit. |
| GlmQuant.CandidatesAreMatches | src/glm52/quant.rs:152-183 | The candidates inference considers are exactly the shapes some layout fits. |
| GlmQuant.MetalAcceptsWhatResolves | src/metal.rs:1893-1942 | The Metal classifier rejects a shape that resolution accepts if and only if it is rows of no columns without scales. |
| GlmQuant.MetalRejectsEmptyRows | src/metal.rs:1893-1942 | The smallest such shape. |
| GlmQuant.ResolvesWhatMetalAccepts | src/metal.rs:1893-1942 | A shape the Metal classifier accepts is refused by resolution if and only if it is packed rows of more than 256 columns with one scale each. |
| GlmQuant.MetalAcceptsWideRow | src/metal.rs:1893-1942 | One such shape. |
| GlmQuant.MetalSizes | src/metal.rs:1893-1942 | What the classifier accepts has exactly the bytes and scales of its encoding, within machine words. |
| GlmQuant.MetalReadsTheSameScales | src/glm52/cpu.rs:1357-1390 | Whenever both accept, every row and column maps to the same scale. |
| Worker.RunModelWorker | src/runtime.rs:789-879 | Over the CPU sessions, for every sequence of jobs with any session IDs, evictions, failures and cancellations: each job gets token texts and then one final event, a completion is the answer of the job run alone and means that nothing interrupted it, and every job not interrupted while it runs completes whenever it would alone, unless its own resident session holds the prompt without its logits; on Qwen and without a session that never happens. |
| Worker.HandleJob | src/runtime.rs:797-877 | One job: its events, what it does to the resident sessions, and that an uninterrupted job completes whenever it would alone unless its own resident session holds the prompt without its logits, in which case it fails. |
| Worker.FindOrCreate | src/runtime.rs:821-847 | A named session is found, or created after the least recently used one made room. |
| Worker.OldestSession | src/runtime.rs:824-833 | The session with the smallest clock value, the smaller name on ties. |
| Worker.BeforeMeans | src/runtime.rs:824-833 | Names are compared at their first difference, a beginning before what it begins. |
| Worker.Serve | src/runtime.rs:848-863 | Whatever the session held, a completed answer is that of a new one, and only a held prompt without logits keeps an uninterrupted job from it. |
| Worker.AloneIsTheAnswer | src/runtime.rs:423-445 | The answer of a job alone is the one the law of a reply allows for its prompt, behind the checks of its budget, sampling and messages. |
| WorkerProtocol.StepKeepsInv | src/runtime.rs:686-723 | Every action of every interleaving keeps the invariant: outstanding and answered jobs in submission order, queues, token buffers and loaded workers within their limits. |
| WorkerProtocol.EveryRun | src/runtime.rs:741-774 | Over every run each accepted job is answered in order by tokens and then exactly one completion or error, unless its receiver is gone. |
| WorkerProtocol.EveryAnswer | src/runtime.rs:741-774 | Each answer of a run was given by one action: a completion to the job that finished well, an error to one that failed, was cancelled in the queue or met a failed model. |
| WorkerProtocol.EverySubmission | src/runtime.rs:664-724 | Over every run no two accepted jobs share a number, every submission before shutdown was accepted or refused, and a job whose receiver is gone is cancelled. |
| WorkerProtocol.SubmitAccepts | src/runtime.rs:683-723 | A submission is accepted exactly when there is, or may be, a worker that is not stopped with room in its queue. |
| WorkerProtocol.StepRuns | src/runtime.rs:797-877 | A job is begun only from the front of the queue of a ready worker and not once cancelled; from then on only tokens are added to its answer. |
| WorkerProtocol.CancelledStays | src/runtime.rs:517-536 | A job once cancelled or dropped stays so for the rest of the run. |
| WorkerProtocol.StepStatus | src/runtime.rs:741-774 | The life of a worker: loading ends ready or failed, ready and busy alternate, and only an idle worker with an empty queue stops, after shutdown. |
| WorkerProtocol.StoppedMeansDrained | src/runtime.rs:765-774 | A stopped worker has answered every job it accepted, after the senders were dropped. |
| WorkerProtocol.DrainMakesProgress | src/runtime.rs:472-495 | After shutdown a loaded worker that is not stopped always owes less after its next move; only a full token buffer makes it wait, and then one read by the receiver is enough. |
| WorkerProtocol.OwedNeverGrows | src/runtime.rs:472-495 | After shutdown no action of anyone adds to what a worker owes, and no worker appears. |
| WorkerProtocol.DrainReachesStopped | src/runtime.rs:472-495 | So from every state after shutdown such a worker can be drained until it has stopped. |

## Left out

- Floating-point numerics (norms, softmax, RoPE, activations, dequantized values): uninterpreted functions, or
  real numbers for the Qwen recurrence; no claim is made that CPU and Metal compute the same numbers. Scores
  compared with a total order on floats are ranks.
- The Metal device, command buffers and shaders: ring reads are indexed modulo the capacity the host passes.
- Saturating and wrapping 64-bit counters and clocks: statistics, the caches' clocks and the worker's session
  clock are unbounded.
- HTTP server, command line, terminal chat, logging, environment variables, timing and profile fields,
  resident-byte reports.
- JSON, and real file reads with their retry loops: files are byte sequences and reads may fail. GGUF reads fail
  only by leaving the file.
- `src/safetensors.rs`: shard headers and the name index; GLM's stored tensors are given as a sequence.
- Catalog discovery, registry writing and path checks in `src/model.rs`.
- Fixed configuration and tensor-name tables of each model family, and chat templates: a job's messages become
  tokens through an abstract function that may fail.
- Unicode classification: letters, numbers and whitespace are abstract predicates, and letters and numbers may
  overlap.
- The standard library's sorts and heap: the queue yields any greatest element, and the tensor sort any order by
  offset; the sort of special tokens by length matters only where the first match wins, in the Gemma groups.
- The stop IDs collected while loading the Qwen tokenizer.
- Loading of GLM weights and of the Gemma vocabulary: what loading establishes is assumed of a tokenizer there.
- Sampling: the selector is a deterministic function of its own state and the logits.
- Poisoned locks and thread panics; the loaded-model table is changed in one step per request.
- GGUF signed integers and floats are kept as bit patterns.
- GgufIndex.AlignUpIsLeast: alignment is rounded by division; the code clears low bits, which is the same for the
  powers of two it accepts.
- GgufRoundTrip.RoundTrip: the tensor payload and the padding are arbitrary bytes.
- ByteBpe.DecodeUndoesEncode: special texts are non-empty and ASCII, and visible where they go through the byte
  table; an empty special text would keep the loop from advancing.
- GlmQuant.MetalAcceptsWhatResolves: buffers have an addressable size, below half a machine word; so in
  `GlmQuant.ResolvesWhatMetalAccepts`.
- Worker.RunModelWorker: the sessions are those of the CPU backends; on Metal, answers depend on the moves back of
  `GemmaMetal.Gemma4MetalSession.Generate` and on the bytes of `StreamedExperts.ExpertCache.WithExpert`. Sessions
  are values the worker owns and become objects while a job runs; Gemma's streamed pieces are the texts of single
  tokens and are not claimed to concatenate to the final text.
- GemmaMetal.Gemma4MetalSession.Generate: the experts are inside the layer function, so a streamed expert is taken to
  deliver its stored bytes; when it does is `StreamedExperts.ExpertCache.WithExpert`.
- WorkerProtocol.DrainMakesProgress: a worker that is still loading finishes loading first. That receivers read, or
  go away, is up to them.
- GlmSession.Glm52CpuSession.SelectPositions: the query and key products of the indexer are folded into one scoring
  function, and index keys into one function that may fail.
- Recurrence.UpdateHead: fused multiply-add is exact over the reals, and the decay is given instead of its logarithm.
