/**
  The question-answering orchestrator: a knowledge base object that loads,
  chunks and indexes documents, and answers a question from the chunks the
  search retrieves, with a deduplicated list of citations.
*/
module Rag {
  import opened Wrappers
  import opened Text
  import opened Loader
  import opened VectorStore

  /** One entry of the `sources` list of an answer. */
  datatype Citation = Citation(file: string, author: string, topic: string)

  /** The dictionary `ask` returns. */
  datatype RetrievalResult = RetrievalResult(
    question: string,
    answer: string,
    sources: seq<Citation>,
    numChunksUsed: nat)

  /** The chat model (`ChatBedrock.invoke(prompt).content`), an opaque collaborator. */
  type Generator = string -> string

  const DefaultTopK: int := 3

  /** The phrase the "not ready" answer is recognised by. */
  const NotInitializedMarker: string := "not initialized"

  /** The cross mark and the words before the marker in the "not ready" answer. */
  const NotInitializedLead: string := ['\U{274C}'] + " Knowledge base "

  const NotInitializedAnswer: string :=
    NotInitializedLead + NotInitializedMarker + ". Load documents and create index first."

  const NoResultsAnswer: string :=
    "No relevant information found in the knowledge base for this question."

  /** What `"\n\n".join(context_parts)` puts between two source blocks. */
  const BlockSeparator: string := "\n\n"

  const PromptPreamble: string :=
    "Based on the following context from a knowledge base, please answer the question.\n"
    + "Only use information from the context provided. If the context doesn't contain enough information\n"
    + "to fully answer the question, say so clearly.\n\nContext:\n"

  const QuestionLabel: string := "\n\nQuestion: "

  const PromptClosing: string :=
    "\n\nAnswer: Provide a clear, comprehensive answer based on the context above. Include specific details\n"
    + "and cite which sources you're drawing from when relevant."

  /** The citation a retrieved chunk contributes: its file, author and topic, `Unknown` when missing. */
  function CitationOf(d: Document): Citation {
    Citation(MetaGet(d.metadata, "source"), MetaGet(d.metadata, "author"), MetaGet(d.metadata, "topic"))
  }

  /** The citation of every retrieved chunk, in rank order, repeats included. */
  function Citations(docs: seq<Document>): (cs: seq<Citation>)
    ensures |cs| == |docs|
  {
    seq(|docs|, i requires 0 <= i < |docs| => CitationOf(docs[i]))
  }

  /** The labelled block for the chunk of rank `rank` (counted from 1): `[Source <rank>: <source> by <author>]`, a newline, the chunk text. */
  function SourceBlock(rank: nat, d: Document): string {
    "[Source " + NatToString(rank) + ": " + MetaGet(d.metadata, "source") + " by "
      + MetaGet(d.metadata, "author") + "]\n" + d.content
  }

  /** The block of every retrieved chunk, in rank order, duplicates included. */
  function ContextBlocks(docs: seq<Document>): (blocks: seq<string>)
    ensures |blocks| == |docs|
  {
    seq(|docs|, i requires 0 <= i < |docs| => SourceBlock(i + 1, docs[i]))
  }

  /** The prompt sent to the chat model for a context and a question. */
  function Prompt(context: string, question: string): string {
    PromptPreamble + context + QuestionLabel + question + PromptClosing
  }

  /** The prompt holds the context verbatim after its preamble, and the question verbatim after the context. */
  lemma PromptCarriesContextAndQuestion(context: string, question: string)
    ensures OccursAt(Prompt(context, question), context, |PromptPreamble|)
    ensures OccursAt(Prompt(context, question), question, |PromptPreamble| + |context| + |QuestionLabel|)
  {
    var p := Prompt(context, question);
    var before := PromptPreamble + context + QuestionLabel;
    assert p == before + question + PromptClosing;
    assert p[|PromptPreamble|..|PromptPreamble| + |context|] == context;
    assert p[|before|..|before| + |question|] == question;
  }

  /** The "not initialized" answer says so, in any letter case. */
  lemma NotInitializedAnswerExplains()
    ensures Contains(Lower(NotInitializedAnswer), NotInitializedMarker)
  {
    var lowered := Lower(NotInitializedAnswer);
    var at := |NotInitializedLead|;
    forall i | 0 <= i < |NotInitializedMarker|
      ensures lowered[at + i] == NotInitializedMarker[i]
    {
      assert NotInitializedAnswer[at + i] == NotInitializedMarker[i];
    }
    assert lowered[at..at + |NotInitializedMarker|] == NotInitializedMarker;
    assert OccursAt(lowered, NotInitializedMarker, at);
  }

  /** Builds the context string from the retrieved chunks, one labelled block per chunk. */
  method AssembleContext(docs: seq<Document>) returns (context: string)
    ensures context == Join(ContextBlocks(docs), BlockSeparator)
  {
    var parts: seq<string> := [];
    for i := 0 to |docs|
      invariant |parts| == i
      invariant forall j :: 0 <= j < i ==> parts[j] == SourceBlock(j + 1, docs[j])
    {
      parts := parts + [SourceBlock(i + 1, docs[i])];
    }
    assert parts == ContextBlocks(docs);
    context := Join(parts, BlockSeparator);
  }

  /**
    The context holds the block of every retrieved chunk, repeats included,
    in rank order: the block of rank `i + 1` at its offset, then a blank-line
    separator, then the block of rank `i + 2`.
  */
  lemma ContextInRankOrder(docs: seq<Document>, i: nat)
    requires i < |docs|
    ensures OccursAt(Join(ContextBlocks(docs), BlockSeparator), SourceBlock(i + 1, docs[i]),
                     JoinOffset(ContextBlocks(docs), BlockSeparator, i))
    ensures i + 1 < |docs| ==>
      && OccursAt(Join(ContextBlocks(docs), BlockSeparator), BlockSeparator,
                  JoinOffset(ContextBlocks(docs), BlockSeparator, i) + |SourceBlock(i + 1, docs[i])|)
      && JoinOffset(ContextBlocks(docs), BlockSeparator, i + 1)
         == JoinOffset(ContextBlocks(docs), BlockSeparator, i) + |SourceBlock(i + 1, docs[i])| + |BlockSeparator|
  {
    JoinPlacesParts(ContextBlocks(docs), BlockSeparator, i);
  }

  // ---------------------------------------------------------------------------
  // Citation list
  // ---------------------------------------------------------------------------

  /** The position of the first `x` in `xs`. */
  function FirstIndex<T(==)>(xs: seq<T>, x: T): (i: nat)
    requires x in xs
    ensures i < |xs| && xs[i] == x && x !in xs[..i]
  {
    if xs[0] == x then 0
    else
      var j := FirstIndex(xs[1..], x);
      assert xs[..j + 1] == [xs[0]] + xs[1..][..j];
      j + 1
  }

  predicate NoDuplicates<T(==)>(s: seq<T>) {
    forall i, j :: 0 <= i < j < |s| ==> s[i] != s[j]
  }

  /** A list without repeats whose entries all equal `x` holds `x` at most once. */
  lemma OnlyOneDistinct<T>(s: seq<T>, x: T)
    requires NoDuplicates(s)
    requires forall y :: y in s ==> y == x
    ensures |s| <= 1
  {
    FirstTwoDiffer(s);
  }

  /** In a list without repeats, the first two entries (when present) differ. */
  lemma FirstTwoDiffer<T>(s: seq<T>)
    requires NoDuplicates(s)
    ensures |s| > 1 ==> s[0] in s && s[1] in s && s[0] != s[1]
  {
  }

  /**
    `sources` is the citation list for `docs`: no citation twice, every
    retrieved chunk's citation present and nothing else, and the citations in
    the order their first chunk was ranked.
  */
  ghost predicate IsCitationList(sources: seq<Citation>, docs: seq<Document>) {
    && NoDuplicates(sources)
    && (forall c :: c in sources <==> c in Citations(docs))
    && (forall i, j :: 0 <= i < j < |sources| ==>
          FirstIndex(Citations(docs), sources[i]) < FirstIndex(Citations(docs), sources[j]))
  }

  /**
    Builds the `sources` list: walks the retrieved chunks in rank order and
    appends a chunk's citation unless an equal one is already there.
  */
  method CollectSources(docs: seq<Document>) returns (sources: seq<Citation>)
    ensures IsCitationList(sources, docs)
    ensures |sources| <= |docs|
    ensures docs != [] ==> |sources| >= 1
  {
    var cites := Citations(docs);
    sources := [];
    for i := 0 to |docs|
      invariant NoDuplicates(sources)
      invariant forall c :: c in sources <==> c in cites[..i]
      invariant forall k :: 0 <= k < |sources| ==> sources[k] in cites && FirstIndex(cites, sources[k]) < i
      invariant forall a, b :: 0 <= a < b < |sources| ==> FirstIndex(cites, sources[a]) < FirstIndex(cites, sources[b])
      invariant |sources| <= i
      invariant i > 0 ==> |sources| >= 1
    {
      var sourceInfo := CitationOf(docs[i]);
      assert cites[i] == sourceInfo;
      assert cites[..i + 1] == cites[..i] + [sourceInfo];
      if sourceInfo !in sources {
        assert FirstIndex(cites, sourceInfo) == i;
        sources := sources + [sourceInfo];
      }
    }
    assert cites[..|docs|] == cites;
  }

  // ---------------------------------------------------------------------------
  // KnowledgeBaseRAG
  // ---------------------------------------------------------------------------

  /**
    The knowledge base object. Its steps overwrite its fields one stage at a
    time: documents, then chunks, then the embedder and the store. The ghost
    fields record the calls made to the chunker, the search and the chat
    model, so that the contracts can say when a call is not made.
  */
  class KnowledgeBaseRag {
    var documents: seq<Document>
    var chunks: seq<Document>
    var vectorstore: Option<Store>
    var embeddings: Option<Embedder>
    var llm: Option<Generator>

    /** Every `(query, k)` passed to the similarity search, in order. */
    ghost var searchCalls: seq<(string, int)>
    /** Every prompt passed to the chat model, in order. */
    ghost var prompts: seq<string>
    /** Every `(documents, chunk_size, chunk_overlap)` passed to the chunker, in order. */
    ghost var splitCalls: seq<(seq<Document>, int, int)>

    /** A new knowledge base holds nothing and has no clients yet. */
    constructor ()
      ensures documents == [] && chunks == []
      ensures vectorstore == None && embeddings == None && llm == None
      ensures searchCalls == [] && prompts == [] && splitCalls == []
    {
      documents := [];
      chunks := [];
      vectorstore := None;
      embeddings := None;
      llm := None;
      searchCalls := [];
      prompts := [];
      splitCalls := [];
    }

    /** `load`: replaces the documents with those loaded from the listing and returns how many there are. */
    method Load(listing: Option<seq<SourceFile>>) returns (n: nat)
      modifies this`documents
      ensures listing.None? ==> documents == []
      ensures listing.Some? ==> documents == Loaded(listing.value)
      ensures n == |documents|
    {
      documents := LoadKnowledgeBase(listing);
      n := |documents|;
    }

    /**
      `process`: without documents, returns 0 and leaves the chunks alone (the
      chunker is not called); otherwise replaces the chunks with the
      chunker's output and returns their number.
    */
    method Process(chunkSize: int, chunkOverlap: int, split: Splitter) returns (n: nat)
      modifies this`chunks, this`splitCalls
      ensures documents == [] ==> n == 0 && chunks == old(chunks) && splitCalls == old(splitCalls)
      ensures documents != [] ==>
        && splitCalls == old(splitCalls) + [(documents, chunkSize, chunkOverlap)]
        && chunks == split(documents, chunkSize, chunkOverlap)
        && n == |chunks|
    {
      if documents == [] {
        return 0;
      }
      chunks := CreateChunks(documents, chunkSize, chunkOverlap, split);
      splitCalls := splitCalls + [(documents, chunkSize, chunkOverlap)];
      n := |chunks|;
    }

    /**
      `index`: without chunks, returns 0 and changes nothing; otherwise sets
      up the embedder, builds a store over every chunk and returns its size.
    */
    method Index() returns (n: nat)
      modifies this`embeddings, this`vectorstore
      ensures chunks == [] ==> n == 0 && embeddings == old(embeddings) && vectorstore == old(vectorstore)
      ensures chunks != [] ==>
        && embeddings == Some(TitanEmbeddings)
        && vectorstore == Some(Store(TitanEmbeddings, chunks))
        && n == |chunks|
    {
      if chunks == [] {
        return 0;
      }
      embeddings := Some(TitanEmbeddings);
      var created := CreateVectorStore(chunks, TitanEmbeddings);
      vectorstore := Some(created.value);
      n := NTotal(created.value);
    }

    /** `save`: without a store nothing is written; otherwise the store is written at `path`. */
    method Save(disk: Disk, path: string) returns (written: Disk)
      ensures vectorstore.None? ==> written == disk
      ensures vectorstore.Some? ==> written == disk[path := vectorstore.value.entries]
    {
      written := disk;
      if vectorstore.Some? {
        var saved := SaveVectorStore(disk, vectorstore, path);
        written := saved.value;
      }
    }

    /**
      `load_index`: sets up the embedder, then loads the store saved at
      `path`; when there is none the error is returned and the store is left
      as it was.
    */
    method LoadIndex(disk: Disk, path: string) returns (error: Option<StoreError>)
      modifies this`embeddings, this`vectorstore
      ensures embeddings == Some(TitanEmbeddings)
      ensures path !in disk ==> error == Some(NotFound(path)) && vectorstore == old(vectorstore)
      ensures path in disk ==> error == None && vectorstore == Some(Store(TitanEmbeddings, disk[path]))
    {
      embeddings := Some(TitanEmbeddings);
      var loaded := LoadVectorStore(disk, path, TitanEmbeddings);
      match loaded
      case Err(e) =>
        error := Some(e);
      case Ok(store) =>
        vectorstore := Some(store);
        error := None;
    }

    /**
      `ask`: answers `question` from the `k` chunks the search retrieves.
      The chat model is set up first if there is none. Without a store the
      answer says the knowledge base is not initialized and nothing is
      searched; when the search finds nothing the answer says so and the chat
      model is not called; otherwise the chat model is called once with the
      prompt built from every retrieved chunk, and the result cites each
      distinct (file, author, topic) once while counting every chunk.
    */
    method Ask(question: string, k: int, similar: Similarity, bedrock: Generator) returns (result: RetrievalResult)
      modifies this`llm, this`searchCalls, this`prompts
      ensures llm == if old(llm).None? then Some(bedrock) else old(llm)
      ensures result.question == question
      ensures vectorstore.None? ==>
        && result == RetrievalResult(question, NotInitializedAnswer, [], 0)
        && searchCalls == old(searchCalls) && prompts == old(prompts)
      ensures vectorstore.Some? ==> searchCalls == old(searchCalls) + [(question, k)]
      ensures vectorstore.Some? && similar(vectorstore.value, question, k) == [] ==>
        && result == RetrievalResult(question, NoResultsAnswer, [], 0)
        && prompts == old(prompts)
      ensures vectorstore.Some? && similar(vectorstore.value, question, k) != [] ==>
        var docs := similar(vectorstore.value, question, k);
        var prompt := Prompt(Join(ContextBlocks(docs), BlockSeparator), question);
        && prompts == old(prompts) + [prompt]
        && result.answer == llm.value(prompt)
        && result.numChunksUsed == |docs|
        && IsCitationList(result.sources, docs)
        && 1 <= |result.sources| <= result.numChunksUsed
    {
      if llm.None? {
        llm := Some(bedrock);
      }
      if vectorstore.None? {
        return RetrievalResult(question, NotInitializedAnswer, [], 0);
      }
      var found := Search(vectorstore, question, k, similar);
      searchCalls := searchCalls + [(question, k)];
      var relevantDocs := found.value;
      if relevantDocs == [] {
        return RetrievalResult(question, NoResultsAnswer, [], 0);
      }
      var context := AssembleContext(relevantDocs);
      var prompt := Prompt(context, question);
      var answer := llm.value(prompt);
      prompts := prompts + [prompt];
      var sources := CollectSources(relevantDocs);
      result := RetrievalResult(question, answer, sources, |relevantDocs|);
    }
  }

  /** A knowledge base without a store answers without searching or generating. */
  method AskWithoutIndex()
  {
    var kb := new KnowledgeBaseRag();
    var bedrock: Generator := p => "Test answer";
    var similar: Similarity := (s, q, n) => [];
    var r := kb.Ask("test question", DefaultTopK, similar, bedrock);
    assert r.sources == [] && r.numChunksUsed == 0;
    assert kb.searchCalls == [] && kb.prompts == [];
  }

  /** Two retrieved chunks of the same file are both counted but cited once. */
  method AskCitesFileOnce()
  {
    var kb := new KnowledgeBaseRag();
    var bedrock: Generator := p => "Test answer";
    var meta := map["source" := "test.txt", "author" := "Test", "topic" := "Testing"];
    var first := Document("Content 1", meta);
    var second := Document("Content 2", meta);
    var similar: Similarity := (s, q, n) => [first, second];
    kb.vectorstore := Some(Store(TitanEmbeddings, [first, second]));
    var r := kb.Ask("test question", DefaultTopK, similar, bedrock);
    assert r.numChunksUsed == 2;
    var cited := CitationOf(first);
    assert CitationOf(second) == cited;
    assert Citations([first, second]) == [cited, cited];
    OnlyOneDistinct(r.sources, cited);
    assert |r.sources| == 1;
    assert r.sources[0] in r.sources;
    assert r.sources == [cited];
    assert |kb.prompts| == 1;
  }
}
