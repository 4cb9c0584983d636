/**
 * The records that flow through the RAG engine: a page of extracted text with its
 * metadata, a chunk of a page, a chunk stored with its embedding and id, and a stored
 * chunk with the similarity it scored against a query.
 */
module Documents {

  /** `metadata` of a page: the file it came from, its 1-based page number and its citation label. */
  datatype PageMeta = PageMeta(fileName: string, pageNumber: nat, sourceInfo: string)

  /** One non-empty PDF page: `{ content, metadata }`. */
  datatype PageDoc = PageDoc(content: string, meta: PageMeta)

  /** One window of a page: the page metadata plus `chunkIndex`, its position within the page. */
  datatype Chunk = Chunk(content: string, meta: PageMeta, chunkIndex: nat)

  /** An embedding vector; floating-point components are modelled as exact reals. */
  type Vector = seq<real>

  /** A chunk as kept in the vector store: `{ ...chunk, embedding, id }`. */
  datatype StoredChunk = StoredChunk(chunk: Chunk, embedding: Vector, id: nat)

  /** A stored chunk with its cosine similarity to the query: `{ ...doc, similarity }`. */
  datatype ScoredChunk = ScoredChunk(entry: StoredChunk, similarity: real)
}
