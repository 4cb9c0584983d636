# A verified model of the Gokseong chatbot's retrieval engine

The chatbot answers questions about uploaded PDF documents. It runs in the browser. Its
retrieval engine, `RAGEngine`, is a small in-memory pipeline:

- **Page ingestion.** `loadPDFDocument` joins each page's text items, collapses runs of
  whitespace, trims and drops empty pages. Each kept page gets a `sourceInfo` label, which is
  the file name with its first ".pdf" removed, then the page number and "p".
- **Chunking.** `splitDocumentsToChunks` cuts every page into overlapping windows with
  `splitText` (500 characters, 50 of overlap) and numbers each window within its page.
- **Storing.** `embedAndStoreChunks` embeds the chunks ten at a time. It stores chunk `p` of
  the call under id `p`, both in a `Map` and in the `documents` list. `clearVectorStore`
  empties both.
- **Retrieval.** `retrieveRelevantDocuments` scores every stored chunk by cosine similarity
  with the query, sorts the scores (stably) in descending order and returns the first `k`.
- **Context assembly.** `buildContext` turns the retrieved chunks into three things: source
  lines (`formatSourceLine`), the form references found in them (`extractFormKeywords`) and
  the context text, which is the chunks' labelled blocks joined by blank lines.

The utility module adds:

- text truncation;
- upload validation;
- the bounded conversation archive and event log kept in `localStorage`;
- usage counters;
- the attempt and backoff policy of request retries.

The model has one Dafny module per part:

| Module | What it holds |
|---|---|
| `Wrappers` | the shared datatypes |
| `Documents` | the records |
| `Text` | the JavaScript string operations the code relies on: `\s`, `trim`, `replace`, `split`, `join`, `includes`, `indexOf`, number printing and `toLowerCase` |
| `Chunker`, `Ingest`, `Ranking`, `Context` | the pure and looping parts of the engine |
| `Engine` | the `RagEngine` class, whose fields are the engine's state |
| `Utils` | the utility classes |

Methods model the loops and field updates. Each one is proved against a specification
function, and the properties of that function are proved as lemmas.

## Model

| member | source | states |
|---|---|---|
| Chunker.Windows | js/rag-engine.js:91-105 | Definition of the chunks of one text: the windows of `size` characters every `size - overlap` characters. Properties in `SplitTextShape`, `SplitTextReconstructs` and `TwelveHundredCharactersGiveThreeChunks`; `SplitText` is proved equal to it. |
| Chunker.SplitText | js/rag-engine.js:91-105 | The while loop returns exactly the windows of the text. Empty text gives no chunk. A text of at most `chunkSize` characters gives the single chunk `[text]`. |
| Chunker.SplitTextShape | js/rag-engine.js:96-101 | Chunk `j` starts at `j * (size - overlap)`, before the end of the text, and is that slice of the text. Every chunk but the last has length `size`. The last ends at the text's end. |
| Chunker.OffsetIsLinear | js/rag-engine.js:101 | Advancing `j` times by `size - overlap` from `i` reaches `i + j * (size - overlap)`. |
| Chunker.WindowsFromShape | js/rag-engine.js:96-101 | Window `j` from offset `i` is the slice of the text at `i + j * step`, full-length unless it is the last. |
| Chunker.DropOverlapsOfReassembled | js/rag-engine.js:96-101 | Dropping the overlap from each later window is the reassembled text minus its first `overlap` characters. |
| Chunker.ReassembleWindowsFrom | js/rag-engine.js:96-101 | The windows from offset `i`, overlaps removed, rebuild `text[i..]`. |
| Chunker.SplitTextReconstructs | js/rag-engine.js:91-105 | The first chunk, followed by each later chunk minus its first `chunkOverlap` characters, is exactly the text. |
| Chunker.TwelveHundredCharactersGiveThreeChunks | js/rag-engine.js:91-105 | With the defaults 500/50, a 1200-character page gives three chunks. |
| Chunker.PageChunks | js/rag-engine.js:78-86 | A page gives one chunk per window, carrying the page's metadata unchanged and its position in the page as `chunkIndex`. |
| Chunker.ChunksOf | js/rag-engine.js:72-89 | Definition of the chunks of all pages, page by page. Properties in `ChunkComesFromItsPage`, `ChunksOfPrefix` and `ChunkIndexRestartsPerPage`; `SplitDocumentsToChunks` is proved equal to it. |
| Chunker.SplitDocumentsToChunks | js/rag-engine.js:72-89 | The loop returns the page-by-page concatenation of every page's chunks. |
| Chunker.ChunkComesFromItsPage | js/rag-engine.js:75-88 | Every output chunk is window `chunkIndex` of some input page and carries that page's metadata. |
| Chunker.ChunksOfPrefix | js/rag-engine.js:75-88 | The chunks of the first `k` pages are exactly the opening chunks of the whole output. |
| Chunker.ChunkIndexRestartsPerPage | js/rag-engine.js:75-88 | For every page `d` and window `j`, the output chunk right after the chunks of the earlier pages, plus `j`, is window `j` of page `d`, with page `d`'s metadata and `chunkIndex` `j`. So every page's first chunk has index 0. |
| Chunker.TwoPageUploadNumbering | js/rag-engine.js:75-88 | With a 1200-character first page and the 500/50 defaults, the indexes run 0, 1, 2, then 0 for the second page's first chunk. |
| Text.CollapseWhitespace | js/rag-engine.js:46 | `replace(/\s+/g, ' ')`: never longer than its input. Definition; its properties are in the `Collapse…` rows below. |
| Text.CollapseWhitespaceKeepsText | js/rag-engine.js:46 | `replace(/\s+/g, ' ')` keeps every non-whitespace character, in order. |
| Text.CollapseWhitespaceIsCollapsed | js/rag-engine.js:46 | After collapsing, the only whitespace left is single spaces. |
| Text.CollapseLeavesOnlySpaces | js/rag-engine.js:46 | After collapsing, every whitespace character left is a space. |
| Text.CollapseLeavesNoDoubleSpace | js/rag-engine.js:46 | After collapsing, no two spaces are adjacent. |
| Text.CollapseAppend | js/rag-engine.js:46 | Collapsing a string that is cut after a non-whitespace character collapses the two parts independently. |
| Text.CollapseSeparatesWords | js/rag-engine.js:46 | A whitespace run of any length between two words becomes exactly one space: `a + w + b` collapses to `a`, one space, then `b`, each collapsed. |
| Text.JoinWordsCollapse | js/rag-engine.js:44-47 | Words joined by single spaces are already collapsed. The joined text neither starts nor ends with whitespace. |
| Text.Trim | js/rag-engine.js:47 | `trim`: never longer than its input. Definition; its properties are in `TrimProperties` and `TrimCollapsedIsNormalized`. |
| Text.TrimProperties | js/rag-engine.js:47 | `trim` keeps a contiguous slice that neither starts nor ends with whitespace, and removes only whitespace. |
| Text.TrimCollapsedIsNormalized | js/rag-engine.js:46-47 | Trimming a collapsed string leaves single inner spaces and no space at either end. |
| Text.CollapsedHasNoNewline | js/rag-engine.js:46 | Collapsed text has no line break. |
| Text.IndexOf | js/rag-engine.js:55 | `indexOf`: -1, or an index where the pattern occurs, with no occurrence before it; -1 only when the pattern occurs nowhere. |
| Text.ReplaceFirst | js/rag-engine.js:55 | With a string pattern, `replace` changes only the first occurrence. Without one, the string is unchanged. |
| Text.NatToStringRoundTrip | js/rag-engine.js:55 | The decimal text of a page number reads back as that number. |
| Text.Split | js/rag-engine.js:202 | `split` on one character: at least one piece. Properties in `JoinSplit` and `SplitPiecesLackSeparator`. |
| Text.Join | js/rag-engine.js:45 | Definition of `join(sep)`. Properties in `JoinSplit`, `JoinWordsCollapse` and `JoinPlaces`. |
| Text.JoinPlaces | js/rag-engine.js:259 | Piece `i` of a join sits whole at the total length of the earlier pieces and separators. A separator follows every piece but the last, and the last piece ends the joined string. |
| Text.JoinSuffix | js/rag-engine.js:259 | From the offset of piece `i` on, a join reads as the join of the pieces from `i`. |
| Text.JoinSplit | js/rag-engine.js:202 | Splitting on a character and joining with it gives the string back. |
| Text.SplitPiecesLackSeparator | js/rag-engine.js:202 | No piece of `split('\n')` contains a line break. |
| Text.ContainsMeans | js/rag-engine.js:206 | `includes` holds exactly when `indexOf` finds the pattern. |
| Ingest.PageText | js/rag-engine.js:43-47 | Definition of a page's text: the items joined by a space, whitespace runs collapsed, then trimmed. Properties in `PageTextNormalizes` and `PageTextOfWords`. |
| Ingest.PageTextNormalizes | js/rag-engine.js:43-47 | A page's text is normalized and has no line break. It keeps every non-whitespace character of the joined items. It is empty exactly when the page held only whitespace. |
| Ingest.PageTextOfWords | js/rag-engine.js:43-47 | Text items that are whitespace-free words give the page text of those words separated by exactly one space, so `["a", "b"]` gives "a b". |
| Ingest.SourceInfo | js/rag-engine.js:55 | Definition of the page label: the file name with its first ".pdf" removed, a space, the page number and "p". Property in `SourceInfoRemovesFirstPdf`. |
| Ingest.SourceInfoRemovesFirstPdf | js/rag-engine.js:55 | The label removes only the first ".pdf": when no ".pdf" starts before the end of `base`, the name `base + ".pdf" + rest` labels its pages `base + rest + " Np"`, so "report.v2.pdf.pdf" gives "report.v2.pdf 1p". |
| Ingest.PageDocs | js/rag-engine.js:40-59 | Definition of the documents of the page loop. Properties in `PageDocsExactlyNonEmptyPages`, `KeptPagesKeepNonEmpty`, `KeptPagesDropEmpty` and `PageHasNoLineBreak`; `ExtractPages` is proved equal to it. |
| Ingest.ExtractPages | js/rag-engine.js:40-59 | The page loop returns the documents of the non-empty pages. |
| Ingest.KeptPagesKeepNonEmpty | js/rag-engine.js:49-58 | Every page with non-empty text is kept. |
| Ingest.KeptPagesDropEmpty | js/rag-engine.js:49 | No page with empty text is kept. |
| Ingest.PageDocsExactlyNonEmptyPages | js/rag-engine.js:40-59 | The kept pages are exactly the non-empty ones, in increasing page order. Each has its own normalized text, the file name and its label. |
| Ingest.PageHasNoLineBreak | js/rag-engine.js:46 | No kept page contains a line break. |
| Ranking.Cosine | js/rag-engine.js:182-195 | Definition of `cosineSimilarity`'s value. Properties in `CosineOfZeroVector`, `CosineWithItself` and `CosineSymmetric`; `CosineSimilarity` is proved equal to it. |
| Ranking.ScoreAll | js/rag-engine.js:158-165 | Definition of the scored list: every entry in order with its similarity to the query. `Engine.ScoredInIdOrder` states its order. |
| Ranking.CosineSimilarity | js/rag-engine.js:182-195 | The loop computes the dot product over `vecA`'s indexes divided by the product of the norms, or 0 when that product is 0. |
| Ranking.CosineOfZeroVector | js/rag-engine.js:192-194 | If either vector is all zeros, the similarity is 0 and there is no division. |
| Ranking.CosineWithItself | js/rag-engine.js:182-195 | A vector of non-zero norm has similarity 1 with itself. |
| Ranking.CosineSymmetric | js/rag-engine.js:182-195 | For vectors of equal length, the similarity does not depend on argument order. |
| Ranking.DotSymmetric | js/rag-engine.js:187-189 | The dot product is symmetric. |
| Ranking.SortDesc | js/rag-engine.js:168 | Definition of the stable sort by descending similarity, as an insertion sort. Properties in `SortDescPermutes`, `SortDescSorted`, `SortDescStable` and `SortDescRanked`. |
| Ranking.SortDescPermutes | js/rag-engine.js:168 | The sort is a permutation of the scored entries. |
| Ranking.SortDescSorted | js/rag-engine.js:168 | The sort's output has non-increasing similarity. |
| Ranking.SortDescStable | js/rag-engine.js:168 | For every score, the entries with that score keep their input order. |
| Ranking.SortDescRanked | js/rag-engine.js:168 | Input in increasing id order comes out sorted by similarity, then by id. |
| Ranking.SliceEnd | js/rag-engine.js:175 | `slice(0, k)` ends at `min(k, n)` for `k >= 0`. A negative `k` counts from the end. |
| Ranking.Rank | js/rag-engine.js:168-175 | Definition of sort then `slice(0, k)`. Properties in `RankIsTopK`, `RankKeepsTieOrder` and `RankTieBreakById`. |
| Ranking.RankIsTopK | js/rag-engine.js:168-175 | The result has `min(k, n)` entries for `k >= 0`, drawn from the scored entries and sorted descending. None scores below an entry left out. |
| Ranking.RankKeepsTieOrder | js/rag-engine.js:168-175 | The entries returned with a given score are the first entries of the input with that score. |
| Ranking.RankTieBreakById | js/rag-engine.js:168-175 | Entries scored in increasing id order come out ranked by similarity, then by id. |
| Context.MentionsFormMeans | js/rag-engine.js:206 | A line names a form exactly when it contains one of the eight keywords. |
| Context.ExtractFormKeywords | js/rag-engine.js:197-219 | The nested loops return the deduplicated form references of the trimmed lines, document by document. |
| Context.ScanLines | js/rag-engine.js:203-215 | The inner loop extends the deduplicated references by those of one document's trimmed lines. |
| Context.FormStep | js/rag-engine.js:206-213 | Reading one trimmed line appends its form reference exactly when it names a form and the reference is new. |
| Context.DedupMembership | js/rag-engine.js:211 | Deduplication keeps exactly the values of its input. |
| Context.DedupNoDuplicates | js/rag-engine.js:211 | Deduplication leaves no value twice. |
| Context.DedupFirstSeenOrder | js/rag-engine.js:211 | Deduplication keeps values in order of first occurrence. |
| Context.FormCandidatesMembership | js/rag-engine.js:204-209 | A candidate is exactly a trimmed line that names a form, cut to 60 characters plus "..." when longer. |
| Context.Forms | js/rag-engine.js:197-219 | Definition of `extractFormKeywords`' result. Properties in `FormsComeFromFormLines`, `FormsAreDistinctAndShort` and `FormsInFirstSeenOrder`; `ExtractFormKeywords` is proved equal to it. |
| Context.FormsComeFromFormLines | js/rag-engine.js:197-219 | Every form reference comes from a trimmed line that names a form, cut to 60 characters plus "..." when longer. Every such line's reference is reported. |
| Context.FormsAreDistinctAndShort | js/rag-engine.js:207-213 | No form reference is reported twice. Each is at most 63 characters. |
| Context.FormsInFirstSeenOrder | js/rag-engine.js:201-213 | References come in the order first seen across documents, then lines. |
| Context.OneLinePerChunk | js/rag-engine.js:202 | Chunks without line breaks are one line each. |
| Context.FormatSourceLine | js/rag-engine.js:221-230 | Definition of `formatSourceLine`. Properties in `SourceLineParts`, `SourceLineFileNameDefault` and `SourceLinePageDefault`. |
| Context.SourceLineParts | js/rag-engine.js:221-230 | Each source line is the head, then the quoted preview. The preview is the trimmed content with line breaks replaced by spaces. It is cut to 80 characters plus "..." only when longer than 80. The quoted part has no line break. |
| Context.SourceLineFileNameDefault | js/rag-engine.js:222 | A missing file name shows as "문서", whatever the page number. |
| Context.SourceLinePageDefault | js/rag-engine.js:223 | A missing page number shows as "?", whatever the file name. |
| Context.BlockLabel | js/rag-engine.js:248 | Definition of a block's label: the chunk's `sourceInfo`, or its source line when `sourceInfo` is empty (the `||` fallback). |
| Context.ContextBlock | js/rag-engine.js:247-257 | Definition of one context block. Its label is the chunk's `sourceInfo`, or its source line when `sourceInfo` is empty. Property in `ContextBlockSplits`. |
| Context.ContextBlockSplits | js/rag-engine.js:247-257 | A block is "[출처: " + label + "]", a line break, then the trimmed content, cut to 1200 characters plus "..." when longer. |
| Context.SourceLines | js/rag-engine.js:244 | There is one source line per retrieved chunk, in rank order. |
| Context.Blocks | js/rag-engine.js:247-257 | There is one block per retrieved chunk, in rank order. |
| Context.AssembleContext | js/rag-engine.js:236-259 | An empty retrieval gives the no-documents sentence with empty lists. Otherwise the context is `ContextText`, the sources are the source lines and the forms are the extracted references. |
| Context.ContextText | js/rag-engine.js:259 | Definition of the context string: the blocks joined by a blank line. Properties in `ContextUnfolds`, `BlockAtOffset`, `BlocksSeparated` and `ContextStartsWithBestBlock`. |
| Context.ContextUnfolds | js/rag-engine.js:247-259 | The context of two or more chunks is the best-ranked block, a blank line, then the context of the remaining chunks. |
| Context.BlockAtOffset | js/rag-engine.js:247-259 | The block of the chunk of rank `i` appears whole in the context, at the total length of the blocks and blank lines before it. |
| Context.BlocksSeparated | js/rag-engine.js:259 | Exactly one blank line separates the blocks of consecutive ranks, and the last block ends the context. So no block is dropped, reordered or added. |
| Context.JoinBlocks | js/rag-engine.js:259 | Joining the blocks with blank lines keeps the first block, whole, at the front. |
| Context.ContextStartsWithBestBlock | js/rag-engine.js:247-259 | A non-empty context begins with the best-ranked chunk's block. It is exactly that block when only one chunk was retrieved. |
| Engine.EmbedModel.Embed | js/rag-engine.js:120-121 | A successful embedding call returns one vector per text. |
| Engine.BatchTexts | js/rag-engine.js:116-117 | A batch has between 1 and 10 texts. |
| Engine.EmbedFromEntries | js/rag-engine.js:114-134 | From offset `i`, entry `p` is chunk `i + p` with its own vector, stored under id `i + p`. |
| Engine.EmbedFromOutcome | js/rag-engine.js:114-143 | A successful run stores every remaining chunk. A failed run stores only whole batches, up to the batch whose embedding failed. |
| Engine.EmbedFromStoredBatchesPassed | js/rag-engine.js:114-143 | Every batch that starts inside the stored entries was embedded without failure. |
| Engine.EmbedAll | js/rag-engine.js:114-143 | Definition of what one call of `embedAndStoreChunks` stores and whether it fails. Properties in `EmbedAllShape`. |
| Engine.EmbedAllShape | js/rag-engine.js:114-143 | One call stores chunk `p` under id `p` with its own vector. On success it stores all chunks. On failure it stores a multiple of 10 chunks, fewer than all, and the next batch's embedding failed. The run fails if and only if some batch's embedding fails, and every stored batch's embedding succeeded. |
| Engine.Overlay | js/rag-engine.js:132 | Definition of a run of `Map.set` calls. Properties in `OverlayLookup` and `SecondUploadOverwrites`. |
| Engine.OverlayLookup | js/rag-engine.js:132 | Entries set under ids 0.. overwrite exactly those ids and keep every other entry. |
| Engine.IdRange | js/rag-engine.js:125 | The ids 0..n-1 are exactly the naturals below n. |
| Engine.SecondUploadOverwrites | js/rag-engine.js:125-133 | Without clearing, a second upload overwrites the first's entries under shared ids. The store ends with as many entries as the larger upload. |
| Engine.PdfChunksAreSingleLines | js/rag-engine.js:46 | No chunk cut from PDF pages contains a line break. |
| Engine.InOrder | js/rag-engine.js:154-166 | The entries are visited in `Map` insertion order. |
| Engine.ScoredInIdOrder | js/rag-engine.js:154-166 | Scoring the store visits ids in increasing order. |
| Engine.StoreStep | js/rag-engine.js:132 | Setting an id at most `n` keeps the store's shape. The id is new only when it equals `n`. |
| Engine.RagEngine.constructor | js/rag-engine.js:4-11 | The engine starts with no model, the flag off and an empty store and list. |
| Engine.RagEngine.StoreSize | js/rag-engine.js:276-282 | The store holds exactly ids 0..n-1. |
| Engine.RagEngine.Initialize | js/rag-engine.js:13-25 | Nothing happens when already initialized. Otherwise the model is kept and the flag set. A failed load is rethrown with the engine unchanged. |
| Engine.RagEngine.EmbedAndStoreChunks | js/rag-engine.js:107-145 | It initializes if needed. `documents` grows by the stored entries in input order, and the map receives them. It fails if and only if some batch of 10 chunks fails to embed. |
| Engine.RagEngine.EmbedBatches | js/rag-engine.js:114-144 | The batch loop stores exactly what one call of `embedAndStoreChunks` specifies, and fails on the first failing batch. |
| Engine.RagEngine.EmbedBatch | js/rag-engine.js:115-134 | A failed batch stores nothing. A successful batch stores its chunks under ids `i`, `i + 1`, … |
| Engine.RagEngine.StoreBatch | js/rag-engine.js:124-134 | Chunk `idx` with vector `idx` is set under id `i + idx` and pushed onto `documents`. |
| Engine.RagEngine.Put | js/rag-engine.js:132-133 | One `Map.set` and one `push`. The insertion order stays 0..n-1. |
| Engine.RagEngine.LoadPdfDocument | js/rag-engine.js:27-70 | It initializes if needed. It stores the chunks of the non-empty pages under the actual file name and returns the chunk count. Any failure after loading is the one processing error. |
| Engine.RagEngine.Retrieval | js/rag-engine.js:147-180 | Definition of `retrieveRelevantDocuments`' result. Properties in `RetrievalIsTopK`; `Retrieve` is proved equal to it. |
| Engine.RagEngine.Retrieve | js/rag-engine.js:147-180 | The result is empty when uninitialized, when the store is empty or when the query does not embed. Otherwise every entry is scored in store order, then ranked. |
| Engine.RagEngine.RetrievalIsTopK | js/rag-engine.js:147-180 | Retrieval returns `min(k, store size)` entries, sorted descending. None scores below an entry left out. Ties keep store order, which is increasing id. |
| Engine.RagEngine.BuildContext | js/rag-engine.js:232-274 | It builds the context of the top 8 retrieved chunks. |
| Engine.RagEngine.GetDocumentStats | js/rag-engine.js:276-282 | The chunk count is the store size and never exceeds the documents count. The flag is reported as is. |
| Engine.RagEngine.ClearVectorStore | js/rag-engine.js:284-287 | The store and `documents` become empty. The model and flag are unchanged. |
| Utils.TruncateText | js/utils.js:29-32 | A text that fits is returned unchanged. Otherwise the result is its first `maxLength` characters plus "...", at most `maxLength + 3` long. |
| Utils.TruncateTextIdempotent | js/utils.js:29-32 | Truncating twice is truncating once. |
| Utils.Extension | js/utils.js:143 | The extension is "." and then the text after the last dot, with no further dot. |
| Utils.ExtensionOfDottedName | js/utils.js:143 | `base.ext` has the extension `.ext`, lower-cased. |
| Utils.ExtensionOfUndottedName | js/utils.js:143 | A name with no dot is its own last piece, so its extension is "." plus the whole lower-cased name. |
| Utils.ValidateFile | js/utils.js:128-149 | It checks size, then MIME type, then extension, and reports the first failure. It passes exactly when all three hold. A size equal to the limit passes. |
| Utils.DefaultValidationAcceptsPdf | js/utils.js:128-149 | With the defaults (10 MiB), `x.pdf`, `x.PDF` and the bare name "pdf" pass. |
| Utils.AcceptsPdf | js/utils.js:128-149 | A default-valid PDF passes. |
| Utils.PushBounded | js/utils.js:49-51 | The new entry is appended and the oldest dropped only when the length exceeds the limit. From within the limit the result stays within it and ends with the new entry. |
| Utils.ConversationStore.constructor | js/utils.js:56-59 | Nothing is saved initially. |
| Utils.ConversationStore.SaveConversation | js/utils.js:37-54 | The list receives the new conversation under the bound of 10, and the call returns its id. |
| Utils.WithoutId | js/utils.js:61-65 | `filter(conv => conv.id !== id)`: never longer than the list. Properties in `WithoutIdMembership`, `WithoutIdDistributes` and `WithoutAbsentId`. |
| Utils.WithoutIdMembership | js/utils.js:61-65 | Deleting keeps exactly the conversations whose id differs. |
| Utils.WithoutIdDistributes | js/utils.js:61-65 | Filtering distributes over concatenation, so the kept conversations stay in order. |
| Utils.WithoutAbsentId | js/utils.js:61-65 | Deleting an id no conversation has changes nothing. |
| Utils.ConversationStore.DeleteConversation | js/utils.js:61-65 | The stored list becomes the filtered list. |
| Utils.EventLog.constructor | js/utils.js:264-285 | The log starts empty. |
| Utils.EventLog.TrackEvent | js/utils.js:264-285 | The event is appended under the bound of 100. |
| Utils.CountEvent | js/utils.js:299-303 | A per-name count never exceeds the total. |
| Utils.CountersWithinTotal | js/utils.js:299-303 | The three counters together never exceed the total. |
| Utils.SessionIds | js/utils.js:304 | There are no more distinct sessions than events, and at least one when there is an event. |
| Utils.SessionIdsMembership | js/utils.js:304 | The sessions are exactly the session ids some event carries. |
| Utils.EventLog.GetUsageStats | js/utils.js:296-306 | It reports the total and the counters, which sum to at most the total, and a session count between 1 and the total when there are events. |
| Utils.CountAfterTrack | js/utils.js:276-284 | Tracking adds the new event's share to a counter. When the log was full, it also removes the oldest event's share. |
| Utils.FirstOk | js/utils.js:250-259 | It gives the first successful attempt among the first `n`, or none when all fail. |
| Utils.Backoff | js/utils.js:256 | The wait after failed attempt `i + 1` is `delay * 2^i`. |
| Utils.RetryRequest | js/utils.js:250-259 | It makes at most `maxRetries` attempts and returns the first success. Otherwise it rethrows the last error. The waits are the backoff sequence. With no attempts the result is `undefined`. |

## Left out

- PDF.js parsing and the arrayBuffer read are not modelled. Their output is an input: the text items of each page, or `None` when the file cannot be parsed.
- The Universal Sentence Encoder is a parameter, `use.load()` or `model.embed`. It is a total function from text to vector of a fixed dimension, plus a predicate saying which batches throw. Tensor `dispose` is left out.
- Floating point is modelled with `real`, so NaN, rounding and overflow are not captured. `Math.sqrt` is a parameter, assumed to be the non-negative square root only where a lemma says so.
- Chunker.SplitText: requires `chunkOverlap < chunkSize`. With a larger overlap, `splitText` never ends on a text longer than `chunkSize`, because `i` does not grow. The engine fixes 500 and 50 in its constructor (js/rag-engine.js:4-11), so no call reaches that case.
- Ranking.CosineSimilarity: requires `|vecA| <= |vecB|`. JavaScript reads `undefined` past the end of `vecB` and yields NaN; the engine only compares vectors of the model's one dimension.
- Ranking.CosineWithItself: requires a vector of non-zero norm, because a zero vector scores 0 by the guard.
- `async`/`await`, `console` logging and error message texts are not modelled. The errors are the datatype `EngineError` and `FileError`.
- Engine.RagEngine.BuildContext: the `catch` branch of `buildContext` is not modelled, because retrieval never throws.
- `localStorage` and `sessionStorage` JSON round-trips are not modelled. The stored lists are object fields.
- `new Date()`, `generateId` and `getSessionId` are parameters: the timestamp, id and session id are passed in.
- The `data` object of `trackEvent` is kept as its JSON text.
- `toLowerCase` covers ASCII letters only.
- Strings are sequences of code points, while JavaScript lengths count UTF-16 units. Lengths differ for characters outside the Basic Multilingual Plane.
- Utils.RetryRequest: `setTimeout` delays are recorded in the `waits` list instead of waited out. A non-integer `maxRetries` is not modelled.
- `TextProcessor.formatMessage`, `highlightKeywords`, `extractPhoneNumbers` and `extractEmails` are not modelled, because they depend on regular-expression semantics.
- `exportConversation`, `generateId`, `readPDFAsText`, `downloadFile`, `AnimationHelper`, `checkConnection` and `PerformanceMonitor` are not modelled. They are I/O, timing, randomness or DOM code.
- js/main.js (UI wiring and the chat-completion calls) and sw.js (service-worker caching) are not part of this model.
