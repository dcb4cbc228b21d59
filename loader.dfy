/**
  Document loading: the metadata header parser, the per-file step of loading a
  knowledge base, document statistics and the guard in front of chunking.
*/
module Loader {
  import opened Wrappers
  import opened Text
  import opened Sorting

  /** A LangChain `Document`: text plus a string-to-string metadata mapping. Chunks have the same shape. */
  datatype Document = Document(content: string, metadata: map<string, string>)

  /** The header delimiter; it is matched as a substring, not as a whole line. */
  const Delimiter: string := "---"

  /** What `metadata.get(key, 'Unknown')` falls back to. */
  const Unknown: string := "Unknown"

  /** Python's `metadata.get(key, 'Unknown')`. */
  function MetaGet(metadata: map<string, string>, key: string): string {
    if key in metadata then metadata[key] else Unknown
  }

  // ---------------------------------------------------------------------------
  // parse_metadata
  // ---------------------------------------------------------------------------

  /**
    `content.startswith('---')` and `content.split('---', 2)` giving three
    parts: the text between the first and the second delimiter (the raw
    header) and everything after the second delimiter. None when either test
    fails.
  */
  function HeaderParts(content: string): Option<(string, string)> {
    if !StartsWith(content, Delimiter) then None
    else match FindFrom(content, Delimiter, |Delimiter|)
      case None => None
      case Some(j) => Some((content[|Delimiter|..j], content[j + |Delimiter|..]))
  }

  /** A header line becomes a field when it holds a colon. */
  predicate IsField(line: string) {
    ':' in line
  }

  /** The key of a field line: the text before its first colon, trimmed, then lowered. */
  function FieldKey(line: string): string
    requires IsField(line)
  {
    Lower(Strip(line[..IndexOf(line, ':')]))
  }

  /** The value of a field line: the text after its first colon, trimmed. */
  function FieldValue(line: string): string
    requires IsField(line)
  {
    Strip(line[IndexOf(line, ':') + 1..])
  }

  /** The metadata the header loop builds from `lines`, one line after the other; a later line with the same key overwrites. */
  function HeaderFields(lines: seq<string>): map<string, string>
    decreases |lines|
  {
    if lines == [] then map[]
    else
      var fields := HeaderFields(lines[..|lines| - 1]);
      var last := lines[|lines| - 1];
      if IsField(last) then fields[FieldKey(last) := FieldValue(last)] else fields
  }

  /** `header.strip().split('\n')`. */
  function HeaderLines(header: string): seq<string> {
    Split(Strip(header), '\n')
  }

  /** The metadata mapping `parse_metadata` returns. */
  function ParsedMetadata(content: string): map<string, string> {
    match HeaderParts(content)
    case None => map[]
    case Some((header, _)) => HeaderFields(HeaderLines(header))
  }

  /** The body `parse_metadata` returns. */
  function ParsedBody(content: string): string {
    match HeaderParts(content)
    case None => content
    case Some((_, rest)) => Strip(rest)
  }

  /** The header loop: each line holding a colon stores its value under its key. */
  method HeaderMetadata(lines: seq<string>) returns (metadata: map<string, string>)
    ensures metadata == HeaderFields(lines)
  {
    metadata := map[];
    for i := 0 to |lines|
      invariant metadata == HeaderFields(lines[..i])
    {
      var line := lines[i];
      assert lines[..i + 1][..i] == lines[..i];
      if ':' in line {
        metadata := metadata[FieldKey(line) := FieldValue(line)];
      }
    }
    assert lines[..|lines|] == lines;
  }

  /**
    Splits `content` into its metadata header and its body. Without a leading
    `---`, or without a second `---` after it, the metadata is empty and the
    body is the whole input; otherwise the body is what follows the second
    `---`, trimmed.
  */
  method ParseMetadata(content: string) returns (metadata: map<string, string>, body: string)
    ensures metadata == ParsedMetadata(content) && body == ParsedBody(content)
    ensures !StartsWith(content, Delimiter) ==> metadata == map[] && body == content
    ensures FindFrom(content, Delimiter, |Delimiter|).None? ==> metadata == map[] && body == content
    ensures HeaderParts(content).Some? ==>
      var j := FindFrom(content, Delimiter, |Delimiter|).value;
      body == Strip(content[j + |Delimiter|..])
  {
    metadata := map[];
    if StartsWith(content, Delimiter) {
      var second := FindFrom(content, Delimiter, |Delimiter|);
      if second.Some? {
        var header := Strip(content[|Delimiter|..second.value]);
        metadata := HeaderMetadata(Split(header, '\n'));
        assert HeaderParts(content) == Some((content[|Delimiter|..second.value], content[second.value + |Delimiter|..]));
        body := Strip(content[second.value + |Delimiter|..]);
        return;
      }
    }
    assert HeaderParts(content).None?;
    body := content;
  }

  /**
    The header split, stated without the search: `content` splits into header
    `h` and remainder `rest` exactly when it reads `---`, `h`, `---`, `rest`
    and no `---` starts inside `h` (not even one running into the second
    delimiter). So a `---` inside a header value ends the header there.
  */
  lemma HeaderPartsExactly(content: string, h: string, rest: string)
    ensures HeaderParts(content) == Some((h, rest))
        <==> content == Delimiter + h + Delimiter + rest && !Contains(h + "--", Delimiter)
  {
    if HeaderParts(content) == Some((h, rest)) {
      var j := FindFrom(content, Delimiter, 3).value;
      assert content[3..j] == h && content[j + 3..] == rest;
      assert content == content[..3] + content[3..j] + content[j..j + 3] + content[j + 3..];
      if Contains(h + "--", Delimiter) {
        var i :| 0 <= i <= |h + "--"| && OccursAt(h + "--", Delimiter, i);
        assert h + "--" == content[3..j + 2];
        assert content[3 + i..3 + i + 3] == (h + "--")[i..i + 3];
        assert OccursAt(content, Delimiter, 3 + i);
        assert false;
      }
    }
    if content == Delimiter + h + Delimiter + rest && !Contains(h + "--", Delimiter) {
      assert StartsWith(content, Delimiter);
      assert OccursAt(content, Delimiter, 3 + |h|);
      var f := FindFrom(content, Delimiter, 3);
      assert f.Some?;
      if f.value < 3 + |h| {
        var i := f.value - 3;
        assert h + "--" == content[3..3 + |h| + 2];
        assert content[f.value..f.value + 3] == (h + "--")[i..i + 3];
        assert OccursAt(h + "--", Delimiter, i);
        assert false;
      }
      assert content[3..3 + |h|] == h;
      assert content[3 + |h| + 3..] == rest;
    }
  }

  /**
    The body is not guaranteed to be free of the delimiter: a third `---`
    right after the second one stays at the start of the body.
  */
  lemma BodyMayStartWithDelimiter()
    ensures HeaderParts("---a------x") == Some(("a", "---x"))
    ensures ParsedBody("---a------x") == "---x"
    ensures StartsWith(ParsedBody("---a------x"), Delimiter)
  {
    var content := "---a------x";
    assert content == Delimiter + "a" + Delimiter + "---x";
    forall i | 0 <= i <= 3
      ensures !OccursAt("a--", Delimiter, i)
    {
      assert "a--"[0] == 'a';
    }
    HeaderPartsExactly(content, "a", "---x");
    var body := "---x";
    assert !IsSpace(body[0]) && !IsSpace(body[3]);
    assert Strip(body) == body;
  }

  /** `line` is a field line whose key is `k`. */
  predicate GivesKey(line: string, k: string) {
    IsField(line) && FieldKey(line) == k
  }

  /** A key is in the header metadata exactly when some line holding a colon gives that key. */
  lemma {:induction false} HeaderFieldKeys(lines: seq<string>, k: string)
    ensures k in HeaderFields(lines) <==> exists i :: 0 <= i < |lines| && GivesKey(lines[i], k)
    decreases |lines|
  {
    if lines != [] {
      var init := lines[..|lines| - 1];
      HeaderFieldKeys(init, k);
      assert k in HeaderFields(lines) <==> k in HeaderFields(init) || GivesKey(lines[|lines| - 1], k);
      SomeLine(lines, init, line => GivesKey(line, k));
    }
  }

  /** Some line satisfies `p` exactly when a line before the last does, or the last does. */
  lemma SomeLine(lines: seq<string>, init: seq<string>, p: string -> bool)
    requires lines != [] && init == lines[..|lines| - 1]
    ensures (exists i :: 0 <= i < |lines| && p(lines[i]))
        <==> (exists i :: 0 <= i < |init| && p(init[i])) || p(lines[|lines| - 1])
  {
    if exists i :: 0 <= i < |init| && p(init[i]) {
      var i :| 0 <= i < |init| && p(init[i]);
      assert lines[i] == init[i];
    }
  }

  /** The value stored under a key is the value of the last line that gives that key. */
  lemma {:induction false} HeaderFieldLastWins(lines: seq<string>, i: nat)
    requires i < |lines| && IsField(lines[i])
    requires forall j :: i < j < |lines| && IsField(lines[j]) ==> FieldKey(lines[j]) != FieldKey(lines[i])
    ensures FieldKey(lines[i]) in HeaderFields(lines)
    ensures HeaderFields(lines)[FieldKey(lines[i])] == FieldValue(lines[i])
    decreases |lines|
  {
    if i < |lines| - 1 {
      var init := lines[..|lines| - 1];
      assert init[i] == lines[i];
      forall j | i < j < |init| && IsField(init[j])
        ensures FieldKey(init[j]) != FieldKey(init[i])
      {
        assert init[j] == lines[j];
      }
      HeaderFieldLastWins(init, i);
    }
  }

  /**
    A field line splits at its first colon: the key is the lowered, trimmed
    text before it, and the value is the trimmed rest, colons included.
  */
  lemma FieldAtFirstColon(key: string, value: string)
    requires ':' !in key
    ensures IsField(key + ":" + value)
    ensures FieldKey(key + ":" + value) == Lower(Strip(key))
    ensures FieldValue(key + ":" + value) == Strip(value)
  {
    var line := key + ":" + value;
    assert line[|key|] == ':';
    assert line[..|key|] == key;
    assert IndexOf(line, ':') == |key|;
    assert line[|key| + 1..] == value;
  }

  // ---------------------------------------------------------------------------
  // load_knowledge_base: the per-file step
  // ---------------------------------------------------------------------------

  /**
    One `.txt` file of the knowledge-base directory: its name, its full path
    and its text, or None when reading it raised.
  */
  datatype SourceFile = SourceFile(name: string, path: string, text: Option<string>)

  /**
    The document loaded from a file with text `raw`: the parsed body, and the
    parsed metadata with `source` and `filepath` set to the file's name and
    path, overriding header fields of the same name and leaving the others.
  */
  function LoadedDocument(file: SourceFile, raw: string): (d: Document)
    ensures d.content == ParsedBody(raw)
    ensures d.metadata.Keys == ParsedMetadata(raw).Keys + {"source", "filepath"}
    ensures d.metadata["source"] == file.name && d.metadata["filepath"] == file.path
    ensures forall k :: k in ParsedMetadata(raw) && k != "source" && k != "filepath" ==>
      d.metadata[k] == ParsedMetadata(raw)[k]
  {
    Document(ParsedBody(raw), ParsedMetadata(raw)["source" := file.name]["filepath" := file.path])
  }

  /** The documents loaded from `files` in order, a file whose read failed being skipped. */
  function Loaded(files: seq<SourceFile>): seq<Document>
    decreases |files|
  {
    if files == [] then []
    else
      var loaded := Loaded(files[..|files| - 1]);
      var file := files[|files| - 1];
      match file.text
      case None => loaded
      case Some(raw) => loaded + [LoadedDocument(file, raw)]
  }

  /**
    Every readable file yields its document and every document comes from a
    readable file; there are never more documents than files, and as many when
    every read succeeds.
  */
  lemma {:induction false} LoadedDocuments(files: seq<SourceFile>, d: Document)
    ensures d in Loaded(files) <==>
      exists i :: 0 <= i < |files| && files[i].text.Some? && d == LoadedDocument(files[i], files[i].text.value)
    ensures |Loaded(files)| <= |files|
    ensures (forall i :: 0 <= i < |files| ==> files[i].text.Some?) ==> |Loaded(files)| == |files|
    decreases |files|
  {
    if files != [] {
      var init := files[..|files| - 1];
      LoadedDocuments(init, d);
      if d in Loaded(init) {
        var i :| 0 <= i < |init| && init[i].text.Some? && d == LoadedDocument(init[i], init[i].text.value);
        assert files[i] == init[i];
      }
      if exists i :: 0 <= i < |files| && files[i].text.Some? && d == LoadedDocument(files[i], files[i].text.value) {
        var i :| 0 <= i < |files| && files[i].text.Some? && d == LoadedDocument(files[i], files[i].text.value);
        if i < |init| {
          assert init[i] == files[i];
        }
      }
      if forall i :: 0 <= i < |files| ==> files[i].text.Some? {
        assert forall i :: 0 <= i < |init| ==> init[i] == files[i];
      }
    }
  }

  /**
    Loads the knowledge base from a directory listing (None when the
    directory does not exist): parses every readable file and records where it
    came from.
  */
  method LoadKnowledgeBase(listing: Option<seq<SourceFile>>) returns (documents: seq<Document>)
    ensures listing.None? ==> documents == []
    ensures listing.Some? ==> documents == Loaded(listing.value)
    ensures forall d :: d in documents ==> "source" in d.metadata && "filepath" in d.metadata
  {
    documents := [];
    if listing.None? {
      return;
    }
    var files := listing.value;
    for i := 0 to |files|
      invariant documents == Loaded(files[..i])
    {
      var file := files[i];
      assert files[..i + 1][..i] == files[..i];
      if file.text.Some? {
        var metadata, content := ParseMetadata(file.text.value);
        metadata := metadata["source" := file.name];
        metadata := metadata["filepath" := file.path];
        documents := documents + [Document(content, metadata)];
      }
    }
    assert files[..|files|] == files;
    forall d | d in documents
      ensures "source" in d.metadata && "filepath" in d.metadata
    {
      LoadedDocuments(files, d);
    }
  }

  // ---------------------------------------------------------------------------
  // get_document_stats
  // ---------------------------------------------------------------------------

  /** The distinct values of `key` over `ds`, `Unknown` standing in for a missing key. */
  function DistinctValues(ds: seq<Document>, key: string): set<string>
    decreases |ds|
  {
    if ds == [] then {}
    else DistinctValues(ds[..|ds| - 1], key) + {MetaGet(ds[|ds| - 1].metadata, key)}
  }

  /** A value is among the distinct values exactly when some document has it (or lacks the key, for `Unknown`). */
  lemma {:induction false} DistinctValuesMembership(ds: seq<Document>, key: string, v: string)
    ensures v in DistinctValues(ds, key) <==> exists i :: 0 <= i < |ds| && MetaGet(ds[i].metadata, key) == v
    decreases |ds|
  {
    if ds != [] {
      var init := ds[..|ds| - 1];
      DistinctValuesMembership(init, key, v);
      if v in DistinctValues(init, key) {
        var i :| 0 <= i < |init| && MetaGet(init[i].metadata, key) == v;
        assert ds[i] == init[i];
      }
      if exists i :: 0 <= i < |ds| && MetaGet(ds[i].metadata, key) == v {
        var i :| 0 <= i < |ds| && MetaGet(ds[i].metadata, key) == v;
        if i < |init| {
          assert init[i] == ds[i];
        }
      }
    }
  }

  /** A non-empty list has at least one and at most as many distinct values as documents. */
  lemma {:induction false} DistinctValuesCount(ds: seq<Document>, key: string)
    ensures |DistinctValues(ds, key)| <= |ds|
    ensures ds != [] ==> |DistinctValues(ds, key)| >= 1
    decreases |ds|
  {
    if ds != [] {
      DistinctValuesCount(ds[..|ds| - 1], key);
    }
  }

  /** The summed `len(doc.page_content)` over `ds`. */
  function TotalLength(ds: seq<Document>): nat
    decreases |ds|
  {
    if ds == [] then 0 else TotalLength(ds[..|ds| - 1]) + |ds[|ds| - 1].content|
  }

  /** The summed `len(doc.page_content.split())` over `ds`. */
  function TotalWords(ds: seq<Document>): nat
    decreases |ds|
  {
    if ds == [] then 0 else TotalWords(ds[..|ds| - 1]) + |Words(ds[|ds| - 1].content)|
  }

  /**
    The statistics dictionary. `avgWordsPerDoc` is None for an empty list,
    whose dictionary has no `avg_words_per_doc` key.
  */
  datatype Stats = Stats(
    totalDocuments: nat,
    uniqueAuthors: nat,
    authors: seq<string>,
    topics: seq<string>,
    avgLength: nat,
    totalWords: nat,
    avgWordsPerDoc: Option<nat>)

  /** Python's `a // n` for a non-negative `a` and a positive `n`. */
  function FloorDiv(a: nat, n: nat): nat
    requires n > 0
  {
    a / n
  }

  /**
    Counts documents, collects the sorted distinct authors and topics, and
    averages characters and words per document with floor division.
  */
  method GetDocumentStats(documents: seq<Document>) returns (stats: Stats)
    ensures documents == [] ==> stats == Stats(0, 0, [], [], 0, 0, None)
    ensures documents != [] ==>
      && stats.totalDocuments == |documents|
      && StrictlyAscending(stats.authors)
      && (forall a :: a in stats.authors <==> a in DistinctValues(documents, "author"))
      && stats.uniqueAuthors == |stats.authors| == |DistinctValues(documents, "author")|
      && StrictlyAscending(stats.topics)
      && (forall t :: t in stats.topics <==> t in DistinctValues(documents, "topic"))
      && stats.avgLength == FloorDiv(TotalLength(documents), |documents|)
      && stats.totalWords == TotalWords(documents)
      && stats.avgWordsPerDoc == Some(FloorDiv(TotalWords(documents), |documents|))
  {
    if documents == [] {
      return Stats(0, 0, [], [], 0, 0, None);
    }
    var authors: set<string> := {};
    var topics: set<string> := {};
    var totalLength: nat := 0;
    var totalWords: nat := 0;
    for i := 0 to |documents|
      invariant authors == DistinctValues(documents[..i], "author")
      invariant topics == DistinctValues(documents[..i], "topic")
      invariant totalLength == TotalLength(documents[..i])
      invariant totalWords == TotalWords(documents[..i])
    {
      var doc := documents[i];
      assert documents[..i + 1][..i] == documents[..i];
      authors := authors + {MetaGet(doc.metadata, "author")};
      topics := topics + {MetaGet(doc.metadata, "topic")};
      totalLength := totalLength + |doc.content|;
      totalWords := totalWords + |Words(doc.content)|;
    }
    assert documents[..|documents|] == documents;
    var n := |documents|;
    var avgLength := FloorDiv(totalLength, n);
    var avgWords := FloorDiv(totalWords, n);
    var sortedAuthors := SortedList(authors);
    var sortedTopics := SortedList(topics);
    stats := Stats(n, |authors|, sortedAuthors, sortedTopics, avgLength, totalWords, Some(avgWords));
  }

  // ---------------------------------------------------------------------------
  // create_chunks
  // ---------------------------------------------------------------------------

  const DefaultChunkSize: int := 500
  const DefaultChunkOverlap: int := 50

  /** The text splitter (LangChain's `RecursiveCharacterTextSplitter.split_documents`), an opaque collaborator. */
  type Splitter = (seq<Document>, int, int) -> seq<Document>

  /** `create_chunks`: no documents give no chunks without consulting the splitter; otherwise the splitter's output. */
  function CreateChunks(documents: seq<Document>, chunkSize: int, chunkOverlap: int, split: Splitter): (chunks: seq<Document>)
    ensures documents == [] ==> chunks == []
    ensures documents != [] ==> chunks == split(documents, chunkSize, chunkOverlap)
  {
    if documents == [] then [] else split(documents, chunkSize, chunkOverlap)
  }
}
