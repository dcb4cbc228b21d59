/**
  The vector store as the orchestrator sees it: building it from chunks,
  persisting and reloading it, and searching it. The embedding model and the
  nearest-neighbour search are external; only the guards around them are
  modelled, and the search itself is a parameter.
*/
module VectorStore {
  import opened Wrappers
  import opened Loader

  /** The embedding client `create_embeddings` configures (Bedrock, Titan Embed Text v2). */
  datatype Embedder = BedrockEmbeddings(modelId: string, region: string)

  const TitanEmbeddings: Embedder := BedrockEmbeddings("amazon.titan-embed-text-v2:0", "us-east-1")

  /** A FAISS store: the embedder it was built or loaded with, and the chunks it indexes in insertion order. */
  datatype Store = Store(embedder: Embedder, entries: seq<Document>)

  /** The errors the store functions raise: `ValueError` (empty chunks, no store) and `FileNotFoundError`. */
  datatype StoreError = EmptyChunks | NoStore | NotFound(path: string)

  /** `vectorstore.index.ntotal`: one vector per indexed chunk. */
  function NTotal(store: Store): nat {
    |store.entries|
  }

  /** `create_vector_store`: refuses an empty chunk list, otherwise indexes every chunk once, in order. */
  function CreateVectorStore(chunks: seq<Document>, embedder: Embedder): (r: Result<Store, StoreError>)
    ensures r.Err? <==> chunks == []
    ensures r.Err? ==> r.error == EmptyChunks
    ensures r.Ok? ==> r.value.entries == chunks && r.value.embedder == embedder && NTotal(r.value) == |chunks|
  {
    if chunks == [] then Err(EmptyChunks) else Ok(Store(embedder, chunks))
  }

  /** The directories a store can be saved to: each path holds the indexed chunks written there. */
  type Disk = map<string, seq<Document>>

  /** `save_vector_store`: refuses a missing store, otherwise writes the store's entries at `path` and touches no other path. */
  function SaveVectorStore(disk: Disk, store: Option<Store>, path: string): (r: Result<Disk, StoreError>)
    ensures r.Err? <==> store.None?
    ensures r.Err? ==> r.error == NoStore
    ensures r.Ok? ==> path in r.value && r.value[path] == store.value.entries
    ensures r.Ok? ==> forall p :: p != path ==> (p in r.value <==> p in disk)
    ensures r.Ok? ==> forall p :: p != path && p in disk ==> r.value[p] == disk[p]
  {
    if store.None? then Err(NoStore) else Ok(disk[path := store.value.entries])
  }

  /** `load_vector_store`: a path that does not exist raises `FileNotFoundError`; otherwise the saved entries, with the given embedder. */
  function LoadVectorStore(disk: Disk, path: string, embedder: Embedder): (r: Result<Store, StoreError>)
    ensures r.Err? <==> path !in disk
    ensures r.Err? ==> r.error == NotFound(path)
    ensures r.Ok? ==> r.value == Store(embedder, disk[path])
  {
    if path !in disk then Err(NotFound(path)) else Ok(Store(embedder, disk[path]))
  }

  /** Loading what was just saved at a path, with the same embedder, gives the same store back. */
  lemma SaveThenLoad(disk: Disk, store: Store, path: string)
    ensures SaveVectorStore(disk, Some(store), path).Ok?
    ensures LoadVectorStore(SaveVectorStore(disk, Some(store), path).value, path, store.embedder) == Ok(store)
  {
  }

  /** FAISS's `similarity_search(query, k)`, an opaque collaborator. */
  type Similarity = (Store, string, int) -> seq<Document>

  /** `search`: refuses a missing store, otherwise what the similarity search returns. */
  function Search(store: Option<Store>, query: string, k: int, similar: Similarity): (r: Result<seq<Document>, StoreError>)
    ensures store.None? ==> r == Err(NoStore)
    ensures store.Some? ==> r == Ok(similar(store.value, query, k))
  {
    if store.None? then Err(NoStore) else Ok(similar(store.value, query, k))
  }
}
