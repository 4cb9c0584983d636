/**
 * The `RAGEngine` object: an in-memory vector store (a `Map` from id to stored chunk,
 * plus the `documents` list of everything ever stored), filled batch by batch from
 * the chunks of an uploaded PDF and searched by cosine similarity.
 *
 * The sentence encoder is foreign: `use.load()` becomes an `Option<Embedder>` argument
 * (None when loading throws) and `model.embed(texts)` the vector of each text, unless the
 * call throws. `Math.sqrt` is the `sqrt` argument of retrieval.
 */
module Engine {
  import opened Wrappers
  import opened Documents
  import opened Chunker
  import opened Ingest
  import opened Ranking
  import opened Context
  import Text

  /**
   * A sentence encoder: each text has its vector, of the model's fixed dimension, and a
   * call on a batch either fails as a whole or returns the vectors of its texts in order.
   */
  datatype EmbedModel = EmbedModel(vectorOf: string -> Vector, fails: seq<string> -> bool, dim: nat) {
    /** `model.embed(texts)` followed by `.array()`. */
    function Embed(texts: seq<string>): (r: Option<seq<Vector>>)
      ensures r.Some? ==> |r.value| == |texts|
    {
      if fails(texts) then None else Some(seq(|texts|, j requires 0 <= j < |texts| => vectorOf(texts[j])))
    }
  }

  /** Every vector has the model's dimension. */
  ghost predicate Conforms(m: EmbedModel) {
    forall t :: |m.vectorOf(t)| == m.dim
  }

  type Embedder = m: EmbedModel | Conforms(m) witness EmbedModel((t: string) => [], (texts: seq<string>) => true, 0)

  /** The errors the engine's operations throw. */
  datatype EngineError =
    | ModelLoadFailed        // `use.load()` threw; rethrown by `initialize`
    | EmbeddingFailed        // a batch's `model.embed` threw; rethrown by `embedAndStoreChunks`
    | PdfProcessingFailed    // the message `loadPDFDocument` throws for any failure inside its try block

  /** An uploaded file: its name and, when PDF.js can parse it, the text items of each page. */
  datatype PdfFile = PdfFile(name: string, pages: Option<seq<seq<string>>>)

  /** What `getDocumentStats` returns. */
  datatype DocumentStats = DocumentStats(totalDocuments: nat, totalChunks: nat, isInitialized: bool)

  /** `batchSize` of `embedAndStoreChunks`. */
  const BatchSize: nat := 10

  /** The default `k` of `retrieveRelevantDocuments`. */
  const DefaultTopK: int := 8

  /** `chunks.slice(i, i + batchSize).map(chunk => chunk.content)`: the texts of the batch starting at `i`. */
  function BatchTexts(chunks: seq<Chunk>, i: nat): (r: seq<string>)
    requires i < |chunks|
    ensures 0 < |r| <= BatchSize
  {
    var end := Min(i + BatchSize, |chunks|);
    seq(end - i, j requires 0 <= j < end - i => chunks[i + j].content)
  }

  /** The entries stored from the batch at `i`: chunk `i + j` with its vector under id `i + j`. */
  function BatchEntries(m: Embedder, chunks: seq<Chunk>, i: nat): seq<StoredChunk>
    requires i < |chunks|
  {
    var n := |BatchTexts(chunks, i)|;
    seq(n, j requires 0 <= j < n => StoredChunk(chunks[i + j], m.vectorOf(chunks[i + j].content), i + j))
  }

  /** The entries one call stores, batch by batch from offset `i`, and whether a batch's embedding failed. */
  datatype Embedded = Embedded(entries: seq<StoredChunk>, failed: bool)

  function EmbedFrom(m: Embedder, chunks: seq<Chunk>, i: nat): Embedded
    decreases |chunks| - i
  {
    if i >= |chunks| then Embedded([], false)
    else if m.fails(BatchTexts(chunks, i)) then Embedded([], true)
    else
      var rest := EmbedFrom(m, chunks, i + BatchSize);
      Embedded(BatchEntries(m, chunks, i) + rest.entries, rest.failed)
  }

  lemma EmbedFromStep(m: Embedder, chunks: seq<Chunk>, i: nat)
    requires i < |chunks| && !m.fails(BatchTexts(chunks, i))
    ensures EmbedFrom(m, chunks, i).entries == BatchEntries(m, chunks, i) + EmbedFrom(m, chunks, i + BatchSize).entries
    ensures EmbedFrom(m, chunks, i).failed == EmbedFrom(m, chunks, i + BatchSize).failed
  {
  }

  /** The batch at `i` as the loop slices it: its texts, and its vectors tagged with their ids. */
  lemma BatchFacts(m: Embedder, chunks: seq<Chunk>, i: nat)
    requires i < |chunks|
    ensures var batch := chunks[i..Min(i + BatchSize, |chunks|)];
            && seq(|batch|, j requires 0 <= j < |batch| => batch[j].content) == BatchTexts(chunks, i)
            && (!m.fails(BatchTexts(chunks, i)) ==>
                  Tagged(batch, m.Embed(BatchTexts(chunks, i)).value, i) == BatchEntries(m, chunks, i))
  {
  }

  /** What `embedAndStoreChunks(chunks)` stores with model `m`. */
  function EmbedAll(m: Embedder, chunks: seq<Chunk>): Embedded {
    EmbedFrom(m, chunks, 0)
  }

  lemma BatchShift(x: nat)
    ensures (x + BatchSize) % BatchSize == x % BatchSize
  {
  }

  /** From offset `i`, entry `p` is chunk `i + p` with its own vector under id `i + p`. */
  lemma {:induction false} EmbedFromEntries(m: Embedder, chunks: seq<Chunk>, i: nat)
    ensures var e := EmbedFrom(m, chunks, i);
            && (e.entries != [] ==> i + |e.entries| <= |chunks|)
            && (forall p :: 0 <= p < |e.entries| ==>
                  e.entries[p] == StoredChunk(chunks[i + p], m.vectorOf(chunks[i + p].content), i + p))
    decreases |chunks| - i
  {
    if i < |chunks| && !m.fails(BatchTexts(chunks, i)) {
      var b := BatchEntries(m, chunks, i);
      var rest := EmbedFrom(m, chunks, i + BatchSize).entries;
      EmbedFromEntries(m, chunks, i + BatchSize);
      var es := EmbedFrom(m, chunks, i).entries;
      assert es == b + rest;
      assert rest != [] ==> |b| == BatchSize;
      forall p | 0 <= p < |es|
        ensures es[p] == StoredChunk(chunks[i + p], m.vectorOf(chunks[i + p].content), i + p)
      {
        if p < |b| {
          assert es[p] == b[p];
        } else {
          assert es[p] == rest[p - |b|];
        }
      }
    }
  }

  /**
   * From a batch boundary `i`: a successful run stores every remaining chunk; a failed one
   * stores whole batches only, up to the batch whose embedding failed.
   */
  lemma {:induction false} EmbedFromOutcome(m: Embedder, chunks: seq<Chunk>, i: nat)
    requires i % BatchSize == 0
    ensures var e := EmbedFrom(m, chunks, i);
            && (!e.failed ==> i + |e.entries| == |chunks| || (i >= |chunks| && e.entries == []))
            && (e.failed ==> i + |e.entries| < |chunks| && |e.entries| % BatchSize == 0
                             && m.fails(BatchTexts(chunks, i + |e.entries|)))
    decreases |chunks| - i
  {
    if i < |chunks| && !m.fails(BatchTexts(chunks, i)) {
      var n := |BatchEntries(m, chunks, i)|;
      var rest := EmbedFrom(m, chunks, i + BatchSize);
      BatchShift(i);
      EmbedFromOutcome(m, chunks, i + BatchSize);
      var e := EmbedFrom(m, chunks, i);
      assert |e.entries| == n + |rest.entries| && e.failed == rest.failed;
      if |rest.entries| > 0 || rest.failed {
        assert n == BatchSize;
        BatchShift(|rest.entries|);
      }
    }
  }

  /**
   * From a batch boundary `i`: entry `p` is chunk `i + p` with its own vector under id
   * `i + p`. A successful run stores every remaining chunk; a failed one stores whole
   * batches only, up to the batch whose embedding failed.
   */
  lemma EmbedFromShape(m: Embedder, chunks: seq<Chunk>, i: nat)
    requires i % BatchSize == 0
    ensures var e := EmbedFrom(m, chunks, i);
            && (e.entries != [] ==> i + |e.entries| <= |chunks|)
            && (forall p :: 0 <= p < |e.entries| ==>
                  e.entries[p] == StoredChunk(chunks[i + p], m.vectorOf(chunks[i + p].content), i + p))
            && (!e.failed ==> i + |e.entries| == |chunks| || (i >= |chunks| && e.entries == []))
            && (e.failed ==> i + |e.entries| < |chunks| && |e.entries| % BatchSize == 0
                             && m.fails(BatchTexts(chunks, i + |e.entries|)))
  {
    EmbedFromEntries(m, chunks, i);
    EmbedFromOutcome(m, chunks, i);
  }

  /** From a batch boundary `i`, the embedding of every batch whose chunks were stored succeeded. */
  lemma {:induction false} EmbedFromStoredBatchesPassed(m: Embedder, chunks: seq<Chunk>, i: nat)
    requires i % BatchSize == 0
    ensures forall b :: i <= b < i + |EmbedFrom(m, chunks, i).entries| && b < |chunks| && b % BatchSize == 0 ==>
      !m.fails(BatchTexts(chunks, b))
    decreases |chunks| - i
  {
    if i < |chunks| && !m.fails(BatchTexts(chunks, i)) {
      var n := |BatchEntries(m, chunks, i)|;
      var rest := EmbedFrom(m, chunks, i + BatchSize);
      BatchShift(i);
      EmbedFromStoredBatchesPassed(m, chunks, i + BatchSize);
      assert |EmbedFrom(m, chunks, i).entries| == n + |rest.entries| && n <= BatchSize;
      forall b | i < b < i + n + |rest.entries| && b < |chunks| && b % BatchSize == 0
        ensures !m.fails(BatchTexts(chunks, b))
      {
        assert b >= i + BatchSize;
      }
    }
  }

  /**
   * What one call of `embedAndStoreChunks` stores: on success every chunk, in input order,
   * chunk `p` with its own vector under id `p`; on failure the chunks of the whole batches
   * before the one whose embedding failed. The call fails exactly when some batch's
   * embedding fails, and every batch before the first failing one was embedded.
   */
  lemma EmbedAllShape(m: Embedder, chunks: seq<Chunk>)
    ensures var e := EmbedAll(m, chunks);
            && |e.entries| <= |chunks|
            && (forall p :: 0 <= p < |e.entries| ==> e.entries[p] == StoredChunk(chunks[p], m.vectorOf(chunks[p].content), p))
            && (!e.failed ==> |e.entries| == |chunks|)
            && (e.failed ==> |e.entries| % BatchSize == 0 && |e.entries| < |chunks|
                             && m.fails(BatchTexts(chunks, |e.entries|)))
            && (e.failed <==> exists b :: 0 <= b < |chunks| && b % BatchSize == 0 && m.fails(BatchTexts(chunks, b)))
            && (forall b :: 0 <= b < |e.entries| && b % BatchSize == 0 ==> !m.fails(BatchTexts(chunks, b)))
  {
    var e := EmbedAll(m, chunks);
    EmbedFromShape(m, chunks, 0);
    EmbedFromStoredBatchesPassed(m, chunks, 0);
    if e.failed {
      var b := |e.entries|;
      assert 0 <= b < |chunks| && b % BatchSize == 0 && m.fails(BatchTexts(chunks, b));
    }
  }

  /** The entries that `Map.set` writes, one after the other, into `store`. */
  function Overlay(store: map<nat, StoredChunk>, entries: seq<StoredChunk>): map<nat, StoredChunk> {
    if entries == [] then store
    else
      var last := entries[|entries| - 1];
      Overlay(store, entries[..|entries| - 1])[last.id := last]
  }

  lemma OverlayAppend(store: map<nat, StoredChunk>, entries: seq<StoredChunk>, e: StoredChunk)
    ensures Overlay(store, entries + [e]) == Overlay(store, entries)[e.id := e]
  {
    assert (entries + [e])[..|entries|] == entries;
  }

  lemma {:induction false} OverlayConcat(store: map<nat, StoredChunk>, first: seq<StoredChunk>, second: seq<StoredChunk>)
    ensures Overlay(store, first + second) == Overlay(Overlay(store, first), second)
  {
    if second != [] {
      var m := |second| - 1;
      OverlayConcat(store, first, second[..m]);
      assert (first + second)[..|first| + m] == first + second[..m];
    } else {
      assert first + second == first;
    }
  }

  lemma AppendAssoc(a: seq<StoredChunk>, b: seq<StoredChunk>, c: seq<StoredChunk>)
    ensures (a + b) + c == a + (b + c)
  {
  }

  /** `{ ...chunk, embedding: embeddings[idx], id: i + idx }` for every chunk of a batch. */
  function Tagged(batch: seq<Chunk>, embeddings: seq<Vector>, i: nat): (r: seq<StoredChunk>)
    requires |embeddings| == |batch|
    ensures |r| == |batch|
    ensures forall idx :: 0 <= idx < |batch| ==> r[idx] == StoredChunk(batch[idx], embeddings[idx], i + idx)
  {
    seq(|batch|, idx requires 0 <= idx < |batch| => StoredChunk(batch[idx], embeddings[idx], i + idx))
  }

  /** Entries stored under ids 0.. in order overwrite exactly those ids and keep every other entry. */
  lemma {:induction false} OverlayLookup(store: map<nat, StoredChunk>, entries: seq<StoredChunk>)
    requires forall p :: 0 <= p < |entries| ==> entries[p].id == p
    ensures var s := Overlay(store, entries);
            && (forall id: nat :: id in s <==> id in store || id < |entries|)
            && (forall id: nat :: id < |entries| ==> s[id] == entries[id])
            && (forall id: nat :: id in store && id >= |entries| ==> s[id] == store[id])
  {
    if entries != [] {
      var n := |entries| - 1;
      var front := entries[..n];
      forall p | 0 <= p < |front| ensures front[p].id == p {
        assert front[p] == entries[p];
      }
      OverlayLookup(store, front);
      var s := Overlay(store, entries);
      assert s == Overlay(store, front)[n := entries[n]];
      forall id: nat | id < |entries| ensures s[id] == entries[id] {
        if id < n {
          assert front[id] == entries[id];
        }
      }
    }
  }

  /** The ids 0..n-1. */
  function IdRange(n: nat): (r: set<nat>)
    ensures forall id: nat :: id in r <==> id < n
  {
    if n == 0 then {} else IdRange(n - 1) + {n - 1}
  }

  lemma {:induction false} IdRangeSize(n: nat)
    ensures |IdRange(n)| == n
  {
    if n > 0 {
      IdRangeSize(n - 1);
    }
  }

  /**
   * A second upload without clearing the store: both calls number their chunks from 0, so
   * the second overwrites the first's entries under the ids they share and the store ends
   * with as many entries as the larger upload, while `documents` keeps all of both.
   */
  lemma SecondUploadOverwrites(first: seq<StoredChunk>, second: seq<StoredChunk>)
    requires forall p :: 0 <= p < |first| ==> first[p].id == p
    requires forall p :: 0 <= p < |second| ==> second[p].id == p
    ensures var s := Overlay(Overlay(map[], first), second);
            var n := if |first| < |second| then |second| else |first|;
            && s.Keys == IdRange(n)
            && |s| == n
            && (forall p :: 0 <= p < |second| ==> s[p] == second[p])
            && (forall p :: |second| <= p < |first| ==> s[p] == first[p])
  {
    var s1 := Overlay(map[], first);
    OverlayLookup(map[], first);
    OverlayLookup(s1, second);
    var s := Overlay(s1, second);
    var n := if |first| < |second| then |second| else |first|;
    assert s.Keys == IdRange(n) by {
      forall id: nat ensures id in s.Keys <==> id in IdRange(n) {
      }
    }
    IdRangeSize(n);
  }

  /**
   * Chunks cut from PDF pages have no line break, because page text is whitespace-collapsed;
   * `extractFormKeywords` therefore sees each such chunk as one line.
   */
  lemma PdfChunksAreSingleLines(fileName: string, pages: seq<seq<string>>, size: nat, overlap: nat, p: nat)
    requires overlap < size
    requires p < |ChunksOf(PageDocs(fileName, pages), size, overlap)|
    ensures '\n' !in ChunksOf(PageDocs(fileName, pages), size, overlap)[p].content
  {
    var docs := PageDocs(fileName, pages);
    var c := ChunksOf(docs, size, overlap)[p];
    var d := ChunkComesFromItsPage(docs, size, overlap, p);
    var page := docs[d];
    PageHasNoLineBreak(fileName, pages, d);
    SplitTextShape(page.content, size, overlap, c.chunkIndex);
    var start := ChunkStart(c.chunkIndex, size, overlap);
    assert c.content == page.content[start..Min(start + size, |page.content|)];
    forall k | 0 <= k < |c.content| ensures c.content[k] != '\n' {
      assert c.content[k] == page.content[start + k];
    }
  }

  /**
   * The stored entries in `Map` iteration order. The contract is the definition of this
   * lookup-by-order `map`; `ScoredInIdOrder` states what the order is.
   */
  function InOrder(store: map<nat, StoredChunk>, order: seq<nat>): (r: seq<StoredChunk>)
    requires forall j :: 0 <= j < |order| ==> order[j] in store
    ensures |r| == |order|
    ensures forall j :: 0 <= j < |order| ==> r[j] == store[order[j]]
  {
    seq(|order|, j requires 0 <= j < |order| => store[order[j]])
  }

  /** Scoring the store in insertion order visits the ids in increasing order. */
  lemma ScoredInIdOrder(store: map<nat, StoredChunk>, order: seq<nat>, stored: nat, query: Vector, sqrt: real -> real)
    requires StoreShape(store, order, stored)
    requires forall id :: id in store ==> |query| <= |store[id].embedding|
    ensures var entries := InOrder(store, order);
            (forall e :: e in entries ==> |query| <= |e.embedding|) && IdsIncreasing(ScoreAll(entries, query, sqrt))
  {
    var entries := InOrder(store, order);
    forall e | e in entries ensures |query| <= |e.embedding| {
      var j :| 0 <= j < |entries| && entries[j] == e;
    }
  }

  /**
   * The shape of the vector store: ids 0..n-1, inserted in increasing order, each entry
   * under its own id, and no more entries than chunks ever stored.
   */
  ghost predicate StoreShape(store: map<nat, StoredChunk>, order: seq<nat>, stored: nat) {
    && |order| <= stored
    && (forall j :: 0 <= j < |order| ==> order[j] == j)
    && (forall id: nat :: id in store <==> id < |order|)
    && (forall id :: id in store ==> store[id].id == id)
  }

  /** Every stored vector has the model's dimension. */
  ghost predicate VectorsOf(store: map<nat, StoredChunk>, dim: nat) {
    forall id :: id in store ==> |store[id].embedding| == dim
  }

  /** Setting the entry with id at most n keeps the store's shape: the id is new only when it is n. */
  lemma StoreStep(store: map<nat, StoredChunk>, order: seq<nat>, stored: nat, dim: nat, entry: StoredChunk)
    requires StoreShape(store, order, stored) && VectorsOf(store, dim)
    requires entry.id <= |order| && |entry.embedding| == dim
    ensures entry.id !in store ==> entry.id == |order|
    ensures var order' := if entry.id in store then order else order + [entry.id];
            && StoreShape(store[entry.id := entry], order', stored + 1)
            && VectorsOf(store[entry.id := entry], dim)
  {
    var order' := if entry.id in store then order else order + [entry.id];
    var store' := store[entry.id := entry];
    forall id: nat ensures id in store' <==> id < |order'| {
    }
  }

  class RagEngine {
    /** `vectorStore`: id to stored chunk. */
    var store: map<nat, StoredChunk>
    /** The keys of `vectorStore` in insertion order, the order `Map.entries()` visits them. */
    var storeOrder: seq<nat>
    /** `documents`: every chunk ever stored, in storing order. */
    var documents: seq<StoredChunk>
    /** `model`: null until `initialize` succeeds. */
    var model: Option<Embedder>
    var isInitialized: bool
    const chunkSize: nat := DefaultChunkSize
    const chunkOverlap: nat := DefaultChunkOverlap

    /**
     * The engine's invariant: the model is loaded exactly when the flag is set; the store
     * holds ids 0..n-1, inserted in increasing order, each under its own id with a vector of
     * the model's dimension; and it never holds more entries than `documents`.
     */
    ghost predicate Valid()
      reads this
    {
      && (isInitialized <==> model.Some?)
      && StoreShape(store, storeOrder, |documents|)
      && (model.None? ==> store == map[])
      && (model.Some? ==> VectorsOf(store, model.value.dim))
    }

    /** `new RAGEngine()`: an empty store and no model. */
    constructor ()
      ensures Valid()
      ensures store == map[] && storeOrder == [] && documents == []
      ensures model == None && !isInitialized
    {
      store := map[];
      storeOrder := [];
      documents := [];
      model := None;
      isInitialized := false;
    }

    /** The store holds exactly ids 0..n-1, so its size is the length of its insertion order. */
    lemma StoreSize()
      requires Valid()
      ensures store.Keys == IdRange(|storeOrder|)
      ensures |store| == |storeOrder|
    {
      IdRangeSize(|storeOrder|);
    }

    /**
     * `initialize`: nothing to do when already initialized; otherwise the loaded model is
     * kept and the flag set, and a failed load is rethrown with the engine unchanged.
     */
    method Initialize(loaded: Option<Embedder>) returns (outcome: Outcome<EngineError>)
      requires Valid()
      modifies this
      ensures Valid()
      ensures old(isInitialized) ==> outcome == Pass && unchanged(this)
      ensures !old(isInitialized) && loaded.None? ==> outcome == Fail(ModelLoadFailed) && unchanged(this)
      ensures !old(isInitialized) && loaded.Some? ==>
        && outcome == Pass && isInitialized && model == loaded
        && store == old(store) && storeOrder == old(storeOrder) && documents == old(documents)
    {
      if isInitialized {
        return Pass;
      }
      match loaded {
        case None =>
          return Fail(ModelLoadFailed);
        case Some(m) =>
          model := Some(m);
          isInitialized := true;
          return Pass;
      }
    }

    /**
     * `embedAndStoreChunks`: initialize if needed, then embed the chunks ten at a time and
     * store chunk `p` under id `p` (its position in this call) in both the map and
     * `documents`. A failing batch is rethrown; the batches before it stay stored.
     */
    method EmbedAndStoreChunks(chunks: seq<Chunk>, loaded: Option<Embedder>) returns (outcome: Outcome<EngineError>)
      requires Valid()
      modifies this
      ensures Valid()
      ensures !old(isInitialized) && loaded.None? ==> outcome == Fail(ModelLoadFailed) && unchanged(this)
      ensures old(isInitialized) || loaded.Some? ==>
        && isInitialized
        && model == (if old(isInitialized) then old(model) else loaded)
        && (outcome.Pass? <==> !EmbedAll(model.value, chunks).failed)
        && (outcome.Pass? <==>
              forall b :: 0 <= b < |chunks| && b % BatchSize == 0 ==> !model.value.fails(BatchTexts(chunks, b)))
        && (outcome.Fail? ==> outcome.error == EmbeddingFailed)
        && documents == old(documents) + EmbedAll(model.value, chunks).entries
        && store == Overlay(old(store), EmbedAll(model.value, chunks).entries)
    {
      if !isInitialized {
        outcome := Initialize(loaded);
        if outcome.Fail? {
          return;
        }
      }
      outcome := EmbedBatches(chunks);
      EmbedAllShape(model.value, chunks);
    }

    /** The batch loop of `embedAndStoreChunks`, once the model is loaded. */
    method EmbedBatches(chunks: seq<Chunk>) returns (outcome: Outcome<EngineError>)
      requires Valid() && isInitialized
      modifies this
      ensures Valid() && isInitialized && model == old(model)
      ensures outcome.Pass? <==> !EmbedAll(model.value, chunks).failed
      ensures outcome.Fail? ==> outcome.error == EmbeddingFailed
      ensures documents == old(documents) + EmbedAll(model.value, chunks).entries
      ensures store == Overlay(old(store), EmbedAll(model.value, chunks).entries)
    {
      var m := model.value;
      ghost var startDocs := documents;
      ghost var startStore := store;
      ghost var whole := EmbedAll(m, chunks);
      ghost var done: seq<StoredChunk> := [];
      var i := 0;
      while i < |chunks|
        invariant Valid() && model == Some(m) && isInitialized
        invariant i % BatchSize == 0
        invariant |done| == Min(i, |chunks|)
        invariant |storeOrder| >= |done|
        invariant documents == startDocs + done
        invariant store == Overlay(startStore, done)
        invariant whole.entries == done + EmbedFrom(m, chunks, i).entries
        invariant whole.failed == EmbedFrom(m, chunks, i).failed
        decreases |chunks| - i
      {
        var ok := EmbedBatch(chunks, i);
        if !ok {
          assert whole.entries == done && whole.failed;
          return Fail(EmbeddingFailed);
        }
        ghost var entries := BatchEntries(m, chunks, i);
        OverlayConcat(startStore, done, entries);
        EmbedFromStep(m, chunks, i);
        AppendAssoc(done, entries, EmbedFrom(m, chunks, i + BatchSize).entries);
        AppendAssoc(startDocs, done, entries);
        done := done + entries;
        BatchShift(i);
        i := i + BatchSize;
      }
      assert EmbedFrom(m, chunks, i) == Embedded([], false);
      assert done + [] == done;
      return Pass;
    }

    /**
     * One pass of the batch loop of `embedAndStoreChunks`: the texts of the (at most ten)
     * chunks from offset `i` are embedded together; when that throws nothing is stored,
     * otherwise the batch is stored under ids `i`, `i + 1`, ...
     */
    method EmbedBatch(chunks: seq<Chunk>, i: nat) returns (ok: bool)
      requires Valid() && isInitialized
      requires i < |chunks| && i <= |storeOrder|
      modifies this
      ensures Valid() && isInitialized && model == old(model)
      ensures ok <==> !model.value.fails(BatchTexts(chunks, i))
      ensures !ok ==> documents == old(documents) && store == old(store) && storeOrder == old(storeOrder)
      ensures ok ==> documents == old(documents) + BatchEntries(model.value, chunks, i)
      ensures ok ==> store == Overlay(old(store), BatchEntries(model.value, chunks, i))
      ensures ok ==> |storeOrder| >= Min(i + BatchSize, |chunks|)
    {
      var m := model.value;
      var end := Min(i + BatchSize, |chunks|);
      var batch := chunks[i..end];
      var texts := seq(|batch|, j requires 0 <= j < |batch| => batch[j].content);
      BatchFacts(m, chunks, i);
      var embedded := m.Embed(texts);
      if embedded.None? {
        return false;
      }
      StoreBatch(batch, embedded.value, i, m);
      return true;
    }

    /**
     * The `batch.forEach` of `embedAndStoreChunks`: chunk `idx` of the batch at offset `i`,
     * with vector `idx`, is set in the map under id `i + idx` and pushed onto `documents`.
     */
    method StoreBatch(batch: seq<Chunk>, embeddings: seq<Vector>, i: nat, ghost m: Embedder)
      requires Valid() && model == Some(m)
      requires |embeddings| == |batch| && i <= |storeOrder|
      requires forall j :: 0 <= j < |embeddings| ==> |embeddings[j]| == m.dim
      modifies this
      ensures Valid() && model == old(model) && isInitialized == old(isInitialized)
      ensures documents == old(documents) + Tagged(batch, embeddings, i)
      ensures store == Overlay(old(store), Tagged(batch, embeddings, i))
      ensures |storeOrder| >= i + |batch|
    {
      ghost var entries := Tagged(batch, embeddings, i);
      ghost var startStore := store;
      ghost var startDocs := documents;
      for idx := 0 to |batch|
        invariant Valid() && model == Some(m) && isInitialized == old(isInitialized)
        invariant |storeOrder| >= i + idx
        invariant documents == startDocs + entries[..idx]
        invariant store == Overlay(startStore, entries[..idx])
      {
        var entry := StoredChunk(batch[idx], embeddings[idx], i + idx);
        assert entries[..idx + 1] == entries[..idx] + [entry];
        OverlayAppend(startStore, entries[..idx], entry);
        Put(entry);
      }
      assert entries[..|batch|] == entries;
    }

    /**
     * `this.vectorStore.set(id, entry)` followed by `this.documents.push(entry)`: the id is
     * new to the store only when it is the next one, so the insertion order stays 0..n-1.
     */
    method Put(entry: StoredChunk)
      requires Valid() && model.Some?
      requires entry.id <= |storeOrder| && |entry.embedding| == model.value.dim
      modifies this
      ensures Valid() && model == old(model) && isInitialized == old(isInitialized)
      ensures store == old(store)[entry.id := entry]
      ensures documents == old(documents) + [entry]
      ensures storeOrder == if entry.id in old(store) then old(storeOrder) else old(storeOrder) + [entry.id]
      ensures |storeOrder| >= entry.id + 1
    {
      StoreStep(store, storeOrder, |documents|, model.value.dim, entry);
      if entry.id !in store {
        storeOrder := storeOrder + [entry.id];
      }
      store := store[entry.id := entry];
      documents := documents + [entry];
    }

    /**
     * `loadPDFDocument`: initialize if needed (a failed load is rethrown as it is), extract
     * the non-empty pages, chunk them and store the chunks. Any failure after that point,
     * unreadable PDF or failed embedding, is reported as the one processing error. On
     * success it returns the number of chunks.
     */
    method LoadPdfDocument(file: PdfFile, fileName: string, loaded: Option<Embedder>) returns (result: Result<nat, EngineError>)
      requires Valid()
      modifies this
      ensures Valid()
      ensures !old(isInitialized) && loaded.None? ==> result == Err(ModelLoadFailed) && unchanged(this)
      ensures old(isInitialized) || loaded.Some? ==>
        && isInitialized
        && model == (if old(isInitialized) then old(model) else loaded)
        && (file.pages.None? ==>
              result == Err(PdfProcessingFailed) && store == old(store) && documents == old(documents))
        && (file.pages.Some? ==>
              var name := if fileName == "" then file.name else fileName;
              var chunks := ChunksOf(PageDocs(name, file.pages.value), DefaultChunkSize, DefaultChunkOverlap);
              var e := EmbedAll(model.value, chunks);
              && (result.Ok? <==> !e.failed)
              && (result.Ok? ==> result.value == |chunks|)
              && (result.Err? ==> result.error == PdfProcessingFailed)
              && documents == old(documents) + e.entries
              && store == Overlay(old(store), e.entries))
    {
      if !isInitialized {
        var o := Initialize(loaded);
        if o.Fail? {
          return Err(o.error);
        }
      }
      var actualFileName := if fileName == "" then file.name else fileName;
      match file.pages {
        case None =>
          return Err(PdfProcessingFailed);
        case Some(pages) =>
          var pageDocs := ExtractPages(actualFileName, pages);
          var chunks := SplitDocumentsToChunks(pageDocs, chunkSize, chunkOverlap);
          var o := EmbedAndStoreChunks(chunks, loaded);
          if o.Fail? {
            return Err(PdfProcessingFailed);
          }
          return Ok(|chunks|);
      }
    }

    /** What `retrieveRelevantDocuments(query, k)` returns. */
    function Retrieval(query: string, k: int, sqrt: real -> real): seq<ScoredChunk>
      reads this
      requires Valid()
    {
      if !isInitialized || |store| == 0 || model.value.fails([query]) then []
      else Rank(ScoreAll(InOrder(store, storeOrder), model.value.vectorOf(query), sqrt), k)
    }

    /**
     * `retrieveRelevantDocuments`: empty when uninitialized, when the store is empty or when
     * embedding the query throws; otherwise every entry is scored in store order, the
     * scores are sorted (stably) in descending order and the first `k` are returned.
     */
    method Retrieve(query: string, sqrt: real -> real, k: int := DefaultTopK) returns (relevant: seq<ScoredChunk>)
      requires Valid()
      ensures relevant == Retrieval(query, k, sqrt)
    {
      if !isInitialized || |store| == 0 {
        return [];
      }
      var queryResult := model.value.Embed([query]);
      if queryResult.None? {
        return [];
      }
      var queryEmbedding := queryResult.value[0];
      ghost var entries := InOrder(store, storeOrder);
      var scored: seq<ScoredChunk> := [];
      for j := 0 to |storeOrder|
        invariant |scored| == j
        invariant forall t :: 0 <= t < j ==> scored[t] == ScoredChunk(entries[t], Cosine(queryEmbedding, entries[t].embedding, sqrt))
      {
        var doc := store[storeOrder[j]];
        var similarity := CosineSimilarity(queryEmbedding, doc.embedding, sqrt);
        scored := scored + [ScoredChunk(doc, similarity)];
      }
      assert scored == ScoreAll(entries, queryEmbedding, sqrt);
      relevant := Rank(scored, k);
    }

    /**
     * Retrieval returns nothing when uninitialized or empty; otherwise, when the query
     * embeds, min(k, store size) entries for k >= 0, taken from the store, in non-increasing
     * similarity, none scoring below an entry left out, with equal scores in store order,
     * which is increasing id order.
     */
    lemma RetrievalIsTopK(query: string, k: int, sqrt: real -> real)
      requires Valid()
      ensures !isInitialized || store == map[] ==> Retrieval(query, k, sqrt) == []
      ensures isInitialized && model.value.fails([query]) ==> Retrieval(query, k, sqrt) == []
      ensures isInitialized && store != map[] && !model.value.fails([query]) ==>
        var scored := ScoreAll(InOrder(store, storeOrder), model.value.vectorOf(query), sqrt);
        var r := Retrieval(query, k, sqrt);
        && (k >= 0 ==> |r| == (if k < |store| then k else |store|))
        && multiset(r) <= multiset(scored)
        && SortedDesc(r)
        && (forall x, y :: x in multiset(scored) - multiset(r) && y in r ==> y.similarity >= x.similarity)
        && (forall v :: Ties(r, v) <= Ties(scored, v))
        && RankedOrder(r)
    {
      StoreSize();
      if isInitialized && store != map[] && !model.value.fails([query]) {
        var scored := ScoreAll(InOrder(store, storeOrder), model.value.vectorOf(query), sqrt);
        ScoredInIdOrder(store, storeOrder, |documents|, model.value.vectorOf(query), sqrt);
        RankFacts(scored, k);
      }
    }

    /**
     * `buildContext(query)`: retrieve the top 8, then the no-documents sentence when there
     * are none, else the source lines, the form references and the joined context blocks.
     */
    method BuildContext(query: string, sqrt: real -> real) returns (result: ContextResult)
      requires Valid()
      ensures result == AssembleContext(Retrieval(query, DefaultTopK, sqrt))
    {
      var relevantDocs := Retrieve(query, sqrt);
      if |relevantDocs| == 0 {
        return ContextResult(NoDocuments, [], []);
      }
      var sources := SourceLines(relevantDocs);
      var forms := ExtractFormKeywords(relevantDocs);
      var contextBlocks := Blocks(relevantDocs);
      var context := Text.Join(contextBlocks, "\n\n");
      return ContextResult(context, sources, forms);
    }

    /** `getDocumentStats`: the stored-chunk count never exceeds the `documents` count. */
    function GetDocumentStats(): (stats: DocumentStats)
      reads this
      requires Valid()
      ensures stats.totalChunks <= stats.totalDocuments
      ensures stats.totalChunks == |storeOrder| && stats.totalDocuments == |documents|
      ensures stats.isInitialized == isInitialized
    {
      StoreSize();
      DocumentStats(|documents|, |store|, isInitialized)
    }

    /** `clearVectorStore`: empties the map and `documents`, keeping the model and the flag. */
    method ClearVectorStore()
      requires Valid()
      modifies this
      ensures Valid()
      ensures store == map[] && storeOrder == [] && documents == []
      ensures isInitialized == old(isInitialized) && model == old(model)
    {
      store := map[];
      storeOrder := [];
      documents := [];
    }
  }
}
