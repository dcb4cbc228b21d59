# knowledge-base-rag in Dafny

A model of the logic in the knowledge-base question-answering system. The
system loads `.txt` documents, each with an optional `---`-delimited metadata
header, and computes statistics over them. It chunks the documents, indexes
the chunks in a FAISS vector store, and answers questions. For each question
it retrieves the closest chunks, builds a prompt from them, asks a Bedrock
chat model, and returns the answer with a deduplicated list of cited sources.

The modules:

- `Wrappers` (`wrappers.dfy`): `Option` and `Result`.
- `Text` (`text.dfy`): the Python `str` operations the code relies on:
  - `isspace`, `strip()`, ASCII `lower()`, `find`, `startswith` and `in`;
  - `split(sep)` and `sep.join(...)`, proved to be inverses;
  - `split()` on whitespace;
  - `str(n)` for naturals.
- `Sorting` (`sorting.dfy`): Python's string order (a strict total order), and
  `sorted(set)` as a method.
- `Loader` (`loader.dfy`), from `src/loader.py`:
  - `parse_metadata`;
  - the per-file step of `load_knowledge_base`;
  - `get_document_stats`;
  - the guard of `create_chunks`.
- `VectorStore` (`vectorstore.dfy`): the guards of `src/vectorstore.py`. The
  store is a value holding its embedder and indexed chunks, and a disk is a
  map from path to saved chunks.
- `Rag` (`rag.dfy`): the class `KnowledgeBaseRAG` of `src/rag.py` as the
  Dafny class `KnowledgeBaseRag`, plus context assembly, prompt building and
  citation deduplication.

The loops of the source (the header loop, the loading loop, the statistics
loop, the context loop and the citation loop) are methods with loops. Each
is proved against a specification:
- the header, loading and statistics loops against recursive folds
  (`HeaderFields`, `Loaded`, `DistinctValues`, `TotalLength`, `TotalWords`);
- the context loop against the sequence `ContextBlocks`;
- the citation loop against the predicate `IsCitationList`.

Further lemmas prove properties of those specifications.

Collaborators whose code is outside the model are parameters:

- the directory listing and file contents (`SourceFile`, with `None` text
  for a read that raised);
- the text splitter (`Splitter`);
- the similarity search (`Similarity`);
- the chat model (`Generator`);
- the on-disk index directory (`Disk`).

The class has three ghost fields that log the calls made to the chunker, the
search and the chat model. They let `Process` and `Ask` state when a
collaborator is not called, or is called exactly once. Two small methods, `Rag.AskWithoutIndex` and
`Rag.AskCitesFileOnce`, replay the scenarios of `tests/test_rag.py` against
the contracts.

## Model

| member | source | states |
|---|---|---|
| Loader.ParseMetadata | src/loader.py:39-59 | Content without a leading `---`, or without a second `---` after it, gives an empty map and the content unchanged. Otherwise the body is the stripped text after the second `---`, and the metadata is the header fold `HeaderFields`. |
| Loader.HeaderMetadata | src/loader.py:49-53 | The header loop computes exactly `HeaderFields` of the header lines. |
| Loader.HeaderPartsExactly | src/loader.py:42-46 | Header `h` and remainder `rest` are found exactly when the content reads `---` h `---` rest and no `---` starts inside `h`. So a `---` inside a header value ends the header. |
| Loader.BodyMayStartWithDelimiter | src/loader.py:43-56 | For `"---a------x"` the header is `a` and the body is `"---x"`, which starts with the delimiter. |
| Loader.HeaderFieldKeys | src/loader.py:49-53 | A key is in the metadata exactly when some header line holding a colon yields that key. Lines without a colon add nothing. |
| Loader.HeaderFieldLastWins | src/loader.py:53 | The value stored under a key is the value of the last line giving that key. |
| Loader.FieldAtFirstColon | src/loader.py:50-53 | A line `key:value` (no colon in `key`) is a field. Its key is the stripped, lowered `key`. Its value is the stripped `value`, keeping any colons in it. |
| Loader.LoadedDocument | src/loader.py:103-115 | A loaded document's content is the parsed body. Its metadata keys are the parsed keys plus `source` and `filepath`, set to the file name and path. Every other parsed key keeps its value. |
| Loader.LoadedDocuments | src/loader.py:97-127 | A document is loaded exactly when it comes from a readable file. There are never more documents than files, and exactly as many when every read succeeds. |
| Loader.LoadKnowledgeBase | src/loader.py:85-127 | A missing directory gives no documents. Otherwise the result is `Loaded` of the listing, and every document carries `source` and `filepath`. |
| Loader.DistinctValuesMembership | src/loader.py:156-165 | A value is among the collected authors (topics) exactly when some document has it. A document missing the key counts as `Unknown`. |
| Loader.DistinctValuesCount | src/loader.py:156-171 | A non-empty list has between 1 and `n` distinct values. |
| Loader.GetDocumentStats | src/loader.py:146-177 | An empty list gives the zero dictionary without `avg_words_per_doc`. Otherwise: the count; strictly ascending authors and topics holding exactly the distinct values; `unique_authors` is their number; floor-divided average length and words; total words. |
| Loader.CreateChunks | src/loader.py:203-205 | No documents give no chunks, and the splitter is not consulted. Otherwise the result is the splitter's output. |
| Sorting.SortedList | src/loader.py:172-173 | `sorted(list(s))` is strictly ascending in Python's string order, holds exactly the elements of `s`, and has as many entries as `s` has elements. |
| Sorting.LessTransitive | src/loader.py:172-173 | The string order used by `sorted` is transitive. |
| Sorting.LessTotal | src/loader.py:172-173 | Any two distinct strings are ordered one way or the other. |
| Sorting.LessIrreflexive | src/loader.py:172-173 | No string is less than itself. |
| Text.Strip | src/loader.py:46 | `strip()` returns a slice of its input, cuts off only whitespace, and neither starts nor ends with whitespace. |
| Text.FindFrom | src/loader.py:43 | The second delimiter is the first occurrence at or after the given position, and none exists when the result is `None`. |
| Text.JoinSplit | src/loader.py:49 | Joining the pieces of `split('\n')` with `\n` gives the header back, so no text of the header is lost. |
| Text.SplitJoin | src/loader.py:49 | Splitting a join of newline-free lines gives the lines back. |
| Text.WordsKeepNonSpace | src/loader.py:167 | The words of `split()` hold exactly the non-whitespace characters, in order. |
| Text.WordCount | src/loader.py:167 | `len(s.split())` is the number of maximal runs of non-whitespace characters: the positions holding a non-whitespace character at the start of `s` or right after whitespace. |
| Text.NatToStringRoundTrip | src/rag.py:238 | The rank written into `[Source i: ...]` reads back as `i`. |
| Text.JoinPlacesParts | src/rag.py:241 | `sep.join(parts)` holds every part at its offset, in order, with one separator after each part but the last. |
| VectorStore.CreateVectorStore | src/vectorstore.py:37-50 | An empty chunk list is refused (`ValueError`). Otherwise every chunk is indexed once, in order, and `ntotal` equals the number of chunks. |
| VectorStore.SaveVectorStore | src/vectorstore.py:68-71 | A missing store is refused. Otherwise its chunks are written at `path`, and no other path changes. |
| VectorStore.LoadVectorStore | src/vectorstore.py:95-113 | A path that does not exist raises `FileNotFoundError`. Otherwise the saved chunks come back with the given embedder. |
| VectorStore.SaveThenLoad | src/vectorstore.py:53-113 | Loading what was just saved at a path, with the same embedder, gives the same store. |
| VectorStore.Search | src/vectorstore.py:138-142 | A missing store is refused. Otherwise the result is what the similarity search returns. |
| Rag.AssembleContext | src/rag.py:233-241 | The context is the `\n\n`-join of one `[Source i: <source> by <author>]\n<content>` block per retrieved chunk, duplicates included, with `i` counting from 1. |
| Rag.ContextInRankOrder | src/rag.py:233-241 | The block of rank `i+1` sits at its offset in the context, followed by the blank-line separator, and the block of rank `i+2` starts right after. |
| Rag.PromptCarriesContextAndQuestion | src/rag.py:250-260 | The prompt holds the context verbatim after its preamble, and the question verbatim after the context. |
| Rag.NotInitializedAnswerExplains | src/rag.py:196-202 | The "not ready" answer contains "not initialized" once lowered. |
| Rag.CollectSources | src/rag.py:268-277 | The sources list has no triple twice and holds every retrieved `(file, author, topic)` and nothing else. Its order is that of first occurrence. It has at most as many entries as chunks, and at least one when a chunk was retrieved. |
| Rag.OnlyOneDistinct | src/rag.py:276-277 | A duplicate-free list whose entries are all equal has at most one entry, so chunks from one file yield a single source. |
| Rag.KnowledgeBaseRag.constructor | src/rag.py:44-52 | A new knowledge base has no documents, no chunks, no store, no embedder and no chat model, and has made no calls. |
| Rag.KnowledgeBaseRag.Load | src/rag.py:77-102 | The documents are replaced by those loaded from the listing, and their number is returned. |
| Rag.KnowledgeBaseRag.Process | src/rag.py:104-129 | Without documents it returns 0, leaves the chunks unchanged and does not call the chunker. Otherwise the chunker is called once with the documents and sizes, the chunks become its output, and their number is returned. |
| Rag.KnowledgeBaseRag.Index | src/rag.py:131-149 | Without chunks it returns 0 and changes neither the embedder nor the store. Otherwise it sets the Titan embedder and a store over every chunk, and returns `ntotal`. |
| Rag.KnowledgeBaseRag.Save | src/rag.py:151-164 | Without a store nothing is written. Otherwise the store is written at `path`. |
| Rag.KnowledgeBaseRag.LoadIndex | src/rag.py:166-178 | It sets the embedder. It then loads the store saved at `path`, or reports `FileNotFoundError` and keeps the old store. |
| Rag.KnowledgeBaseRag.Ask | src/rag.py:180-294 | The chat model is set up if absent, and the question is returned unchanged. Without a store: the "not initialized" answer, no sources, 0 chunks, and no search or generation. With an empty search result: the "No relevant information" answer and no generation. Otherwise: exactly one generation with the prompt built from all retrieved chunks, the generator's output as the answer, the raw chunk count, and a deduplicated citation list with `1 <= len(sources) <= num_chunks_used`. |

## Left out

- Text.Lower: models `str.lower()` on ASCII letters only. Python lowers every Unicode cased letter; header keys outside ASCII are not lowered in the model.
- Directory globbing, file reading and the exception handler around a failed read (`src/loader.py:86-101`, `123-124`) are not modelled. The listing is a parameter, and a file whose read raised is a `SourceFile` with no text, which is skipped.
- The text splitter's internals (`RecursiveCharacterTextSplitter`, `src/loader.py:207-217`) are not modelled. The splitter is an opaque function, so chunk sizes and overlap are not constrained.
- Loader.CreateChunks: as a function, it cannot log calls, so "the splitter is not called" on empty input is shown only by the result not depending on it. The call log is kept by `Rag.KnowledgeBaseRag.Process`, which is where the source calls it.
- Embedding vectors, nearest-neighbour ordering and the bytes FAISS writes are not modelled. A store is its list of chunks; `similarity_search` is an opaque function; the disk keeps chunk lists.
- Failures of the collaborators are not modelled. The chunker, the similarity search and the chat model are total functions, and `create_vector_store` cannot fail on non-empty chunks. In the source, an exception from `create_chunks` (`src/rag.py:123`), `create_vector_store` (`src/rag.py:147`), `search` (`src/rag.py:210`) or `self.llm.invoke` (`src/rag.py:264`) propagates out of `process`, `index` or `ask`. By then `embeddings` (`src/rag.py:146`) or `llm` (`src/rag.py:193`) may already be set. The model has no such exit.
- `search_with_scores` (`src/vectorstore.py:145-171`) is not modelled: its scores are floating-point distances.
- A saved index that exists but cannot be deserialized is not modelled. `load_local` errors other than a missing path do not appear.
- `src/embeddings.py` and `_init_llm` (`src/rag.py:56-75`) build AWS clients from environment variables. The embedder is the constant Titan configuration. The chat model is an injected `Generator` that `Ask` installs when none is set.
- The statistics printed by `load` (`src/rag.py:93-100`), every other `print`, and the `show_context` display (`src/rag.py:243-247`) are console output only, so they are not modelled.
- `interactive`, `build_knowledge_base`, the `__main__` blocks and `main.py` are command-line driving code around the modelled operations, so they are not modelled.
- The `ValueError` that `search` raises for a missing store is unreachable from `ask`, which checks for the store first. It is kept in `VectorStore.Search` only.
