/**
 * `generateEmbeddingsForBatch` and the clean-up applied before a result is written: the summary
 * flattened to text for the embedding service, and the summary and source code stripped of NUL
 * characters for the database.
 */
module Embedding {
  import opened Wrappers
  import opened JsText

  /** One element of an array-valued summary; an object chunk is known by its JSON text. */
  datatype Chunk = TextChunk(text: string) | ObjectChunk(json: string)

  /** `typeof chunk === 'string' ? chunk : JSON.stringify(chunk)` */
  function ChunkText(c: Chunk): string {
    match c
    case TextChunk(t) => t
    case ObjectChunk(j) => j
  }

  function ChunkTexts(chunks: seq<Chunk>): (r: seq<string>)
    ensures |r| == |chunks|
    ensures forall i :: 0 <= i < |r| ==> r[i] == ChunkText(chunks[i])
  {
    if chunks == [] then [] else [ChunkText(chunks[0])] + ChunkTexts(chunks[1..])
  }

  /** The value the summariser returns, by its JavaScript type. */
  datatype SummaryValue =
    | Text(s: string)               // a string
    | Chunks(chunks: seq<Chunk>)    // an array of content chunks
    | Falsy                         // null, undefined and the other falsy non-strings
    | OtherValue(asString: string)  // any other truthy value, known by `String(value)`

  /** `summaryString`: the text handed to the embedding service. */
  function SummaryForEmbedding(v: SummaryValue): (r: string)
    ensures v.Text? ==> r == v.s
    ensures v.Chunks? && |v.chunks| == 1 ==> r == ChunkText(v.chunks[0])
    ensures v.Falsy? || (v.Chunks? && v.chunks == []) ==> r == ""
  {
    match v
    case Text(s) => s
    case Chunks(cs) => Join(ChunkTexts(cs), " ")
    case Falsy => ""
    case OtherValue(t) => t
  }

  /** The `summary` column written to the database. */
  function PersistedSummary(v: SummaryValue): (r: string)
    ensures '\0' !in r
    ensures |r| <= |SummaryForEmbedding(v)|
    ensures v.Falsy? || v.OtherValue? ==> r == ""
  {
    match v
    case Text(s) => StripNul(s)
    case Chunks(cs) => StripNul(Join(ChunkTexts(cs), " "))
    case Falsy => ""
    case OtherValue(_) => ""
  }

  /**
   * The stored summary is the embedded text with NUL characters removed, except for a
   * summary that is neither a string nor an array: that one is embedded as `String(value)`
   * but stored empty.
   */
  lemma PersistedSummaryIsCleanedText(v: SummaryValue)
    ensures v.Text? || v.Chunks? ==> PersistedSummary(v) == StripNul(SummaryForEmbedding(v))
    ensures v.Text? || v.Chunks? ==> multiset(PersistedSummary(v)) == multiset(SummaryForEmbedding(v))['\0' := 0]
    ensures v.OtherValue? ==> PersistedSummary(v) == "" && SummaryForEmbedding(v) == v.asString
    ensures '\0' !in PersistedSummary(v)
  {
    StripNulMultiset(SummaryForEmbedding(v));
  }

  /** Removing NUL from the joined text is removing it from each chunk: the separator has none. */
  lemma PersistedChunks(cs: seq<Chunk>)
    ensures PersistedSummary(Chunks(cs)) == Join(StripNulEach(ChunkTexts(cs)), " ")
  {
    StripNulJoin(ChunkTexts(cs), " ");
  }

  /** `doc.pageContent` by type; `JSON.parse(JSON.stringify(undefined))` throws. */
  datatype PageContent = PageText(text: string) | PageUndefined | PageOther

  datatype Doc = Doc(source: Option<string>, pageContent: PageContent)

  type Vector = seq<real>

  /** One element of the array `generateEmbeddingsForBatch` resolves to, when not null. */
  datatype Embedded = Embedded(summary: SummaryValue, embedding: Vector, sourceCode: Option<string>, fileName: Option<string>)

  /** The external services of one indexing run; `None` is a call that throws. */
  datatype Services = Services(
    summarise: Doc -> Option<SummaryValue>,
    embed: string -> Option<Vector>
  )

  /** The per-document step of `generateEmbeddingsForBatch`: any failure yields null. */
  function ProcessDoc(doc: Doc, s: Services): (r: Option<Embedded>)
    ensures r.Some? <==> s.summarise(doc).Some? && s.embed(SummaryForEmbedding(s.summarise(doc).value)).Some?
                         && !doc.pageContent.PageUndefined?
    ensures r.Some? ==> r.value.fileName == doc.source && r.value.summary == s.summarise(doc).value
    ensures r.Some? ==> r.value.embedding == s.embed(SummaryForEmbedding(r.value.summary)).value
    ensures r.Some? && doc.pageContent.PageText? ==> r.value.sourceCode == Some(doc.pageContent.text)
    ensures r.Some? && doc.pageContent.PageOther? ==> r.value.sourceCode.None?
  {
    match s.summarise(doc)
    case None => None
    case Some(summary) =>
      match s.embed(SummaryForEmbedding(summary))
      case None => None
      case Some(vector) =>
        match doc.pageContent
        case PageUndefined => None
        case PageText(t) => Some(Embedded(summary, vector, Some(t), doc.source))
        case PageOther => Some(Embedded(summary, vector, None, doc.source))
  }

  /** `generateEmbeddingsForBatch(userId, docs)`: one result per document, in order. */
  function EmbedBatch(docs: seq<Doc>, s: Services): (r: seq<Option<Embedded>>)
    ensures |r| == |docs|
    ensures forall i :: 0 <= i < |docs| ==> r[i] == ProcessDoc(docs[i], s)
  {
    if docs == [] then [] else [ProcessDoc(docs[0], s)] + EmbedBatch(docs[1..], s)
  }

  /** The data of `db.sourceCodeEmbedding.create` and the vector set by the raw update. */
  datatype EmbeddingRecord = EmbeddingRecord(fileName: string, sourceCode: string, summary: string, vector: Vector)

  /** The clean-up before the write. */
  function Sanitize(e: Embedded): (r: EmbeddingRecord)
    ensures '\0' !in r.sourceCode && '\0' !in r.summary
    ensures r.fileName == e.fileName.GetOr("") && r.vector == e.embedding
    ensures r.summary == PersistedSummary(e.summary)
    ensures r.sourceCode == (if e.sourceCode.Some? then StripNul(e.sourceCode.value) else "")
  {
    PersistedSummaryIsCleanedText(e.summary);
    EmbeddingRecord(
      e.fileName.GetOr(""),
      match e.sourceCode case Some(t) => StripNul(t) case None => "",
      PersistedSummary(e.summary),
      e.embedding)
  }

  /** A source file whose text has no NUL is stored as it was loaded. */
  lemma SourceCodeKeptWithoutNul(doc: Doc, s: Services)
    requires ProcessDoc(doc, s).Some? && doc.pageContent.PageText? && '\0' !in doc.pageContent.text
    ensures Sanitize(ProcessDoc(doc, s).value).sourceCode == doc.pageContent.text
  {
    StripNulIdentity(doc.pageContent.text);
  }
}
