/**
 * `indexGithubRepo`: the loaded documents are cut into batches; for every batch the project's
 * `processedFiles` counter is incremented, the batch is summarised and embedded, each result
 * that is not null is cleaned and written as a `SourceCodeEmbedding` row, and a pause separates
 * one batch from the next.
 */
module Indexing {
  import opened Wrappers
  import opened Embedding
  import opened Batching
  import opened RepoLoading

  /** `batchSize` in `indexGithubRepo`. */
  const BatchSize: nat := 1

  /** How the two database writes for one result end: the `create`, then the raw vector update. */
  datatype WriteOutcome = CreateFailed | VectorFailed | Written

  /** A `SourceCodeEmbedding` row; `vector` is `summaryEmbedding`, left unset when the update fails. */
  datatype Row = Row(fileName: string, sourceCode: string, summary: string, vector: Option<Vector>)

  /** The database writes, as the outcome they have for a given record. */
  type Persist = EmbeddingRecord -> WriteOutcome

  /** The row one result leaves behind: none for null or a failed `create`. */
  function ResultRows(result: Option<Embedded>, persist: Persist): (r: seq<Row>)
    ensures |r| <= 1
  {
    match result
    case None => []
    case Some(e) =>
      var rec := Sanitize(e);
      match persist(rec)
      case CreateFailed => []
      case VectorFailed => [Row(rec.fileName, rec.sourceCode, rec.summary, None)]
      case Written => [Row(rec.fileName, rec.sourceCode, rec.summary, Some(rec.vector))]
  }

  function ResultsRows(results: seq<Option<Embedded>>, persist: Persist): seq<Row> {
    if results == [] then []
    else ResultsRows(results[..|results| - 1], persist) + ResultRows(results[|results| - 1], persist)
  }

  /** The row one document leaves behind. */
  function DocRows(doc: Doc, s: Services, persist: Persist): (r: seq<Row>)
    ensures |r| <= 1
  {
    ResultRows(ProcessDoc(doc, s), persist)
  }

  /** The rows a batch of documents adds, document after document. */
  function BatchRows(docs: seq<Doc>, s: Services, persist: Persist): seq<Row> {
    if docs == [] then []
    else BatchRows(docs[..|docs| - 1], s, persist) + DocRows(docs[|docs| - 1], s, persist)
  }

  /** The rows a sequence of batches adds, batch after batch. */
  function RunRows(batches: seq<seq<Doc>>, s: Services, persist: Persist): seq<Row> {
    if batches == [] then []
    else RunRows(batches[..|batches| - 1], s, persist) + BatchRows(batches[|batches| - 1], s, persist)
  }

  /** Appending the rows of batch `i` to those of the batches before it. */
  lemma RunRowsStep(batches: seq<seq<Doc>>, i: nat, start: seq<Row>, s: Services, persist: Persist)
    requires i < |batches|
    ensures start + RunRows(batches[..i], s, persist) + BatchRows(batches[i], s, persist)
         == start + RunRows(batches[..i + 1], s, persist)
  {
    assert batches[..i + 1][..i] == batches[..i];
  }

  /** `batches.length - 1` pauses: none after the last batch. */
  function Pauses(batchCount: nat): (r: nat)
    ensures batchCount > 0 ==> r + 1 == batchCount
    ensures batchCount == 0 ==> r == 0
  {
    if batchCount == 0 then 0 else batchCount - 1
  }

  // ---------------------------------------------------------------- properties of the rows

  lemma {:induction false} ResultsRowsConcat(a: seq<Option<Embedded>>, b: seq<Option<Embedded>>, persist: Persist)
    ensures ResultsRows(a + b, persist) == ResultsRows(a, persist) + ResultsRows(b, persist)
    decreases |b|
  {
    if b == [] {
      assert a + b == a;
    } else {
      var b' := b[..|b| - 1];
      assert (a + b)[..|a + b| - 1] == a + b';
      ResultsRowsConcat(a, b', persist);
    }
  }

  /** Storing the results of `generateEmbeddingsForBatch` adds the rows of the batch's documents. */
  lemma {:induction false} EmbedBatchRows(docs: seq<Doc>, s: Services, persist: Persist)
    ensures ResultsRows(EmbedBatch(docs, s), persist) == BatchRows(docs, s, persist)
    decreases |docs|
  {
    if docs != [] {
      var init := docs[..|docs| - 1];
      var results := EmbedBatch(docs, s);
      assert results[..|results| - 1] == EmbedBatch(init, s);
      assert results[|results| - 1] == ProcessDoc(docs[|docs| - 1], s);
      assert ResultsRows(results, persist)
          == ResultsRows(EmbedBatch(init, s), persist) + DocRows(docs[|docs| - 1], s, persist);
      EmbedBatchRows(init, s, persist);
    }
  }

  lemma {:induction false} BatchRowsConcat(a: seq<Doc>, b: seq<Doc>, s: Services, persist: Persist)
    ensures BatchRows(a + b, s, persist) == BatchRows(a, s, persist) + BatchRows(b, s, persist)
    decreases |b|
  {
    if b == [] {
      assert a + b == a;
    } else {
      var b' := b[..|b| - 1];
      assert (a + b)[..|a + b| - 1] == a + b';
      assert (a + b)[|a + b| - 1] == b[|b| - 1];
      BatchRowsConcat(a, b', s, persist);
    }
  }

  /** The rows do not depend on how the documents were cut into batches. */
  lemma {:induction false} RunRowsIsBatchRowsOfAll(batches: seq<seq<Doc>>, s: Services, persist: Persist)
    ensures RunRows(batches, s, persist) == BatchRows(Concat(batches), s, persist)
  {
    if batches != [] {
      RunRowsIsBatchRowsOfAll(batches[..|batches| - 1], s, persist);
      RunRowsOfOneMore(batches, s, persist);
    }
  }

  lemma RunRowsOfOneMore(batches: seq<seq<Doc>>, s: Services, persist: Persist)
    requires batches != []
    requires RunRows(batches[..|batches| - 1], s, persist) == BatchRows(Concat(batches[..|batches| - 1]), s, persist)
    ensures RunRows(batches, s, persist) == BatchRows(Concat(batches), s, persist)
  {
    var init := batches[..|batches| - 1];
    var last := batches[|batches| - 1];
    assert RunRows(batches, s, persist) == RunRows(init, s, persist) + BatchRows(last, s, persist);
    ConcatLast(batches);
    BatchRowsConcat(Concat(init), last, s, persist);
  }

  /** At most one row per document, and every stored text is free of NUL characters. */
  lemma {:induction false} BatchRowsClean(docs: seq<Doc>, s: Services, persist: Persist)
    ensures |BatchRows(docs, s, persist)| <= |docs|
    ensures forall row :: row in BatchRows(docs, s, persist) ==> '\0' !in row.summary && '\0' !in row.sourceCode
  {
    if docs != [] {
      BatchRowsClean(docs[..|docs| - 1], s, persist);
    }
  }

  /**
   * A document whose summary, embedding or content conversion fails leaves no row; one that
   * succeeds leaves exactly the row its writes allow, carrying its vector only when both wrote.
   */
  lemma DocRow(doc: Doc, s: Services, persist: Persist)
    ensures ProcessDoc(doc, s).None? ==> DocRows(doc, s, persist) == []
    ensures ProcessDoc(doc, s).Some? ==>
      var rec := Sanitize(ProcessDoc(doc, s).value);
      && (persist(rec) == CreateFailed ==> DocRows(doc, s, persist) == [])
      && (persist(rec) == VectorFailed ==> DocRows(doc, s, persist) == [Row(rec.fileName, rec.sourceCode, rec.summary, None)])
      && (persist(rec) == Written ==> DocRows(doc, s, persist) == [Row(rec.fileName, rec.sourceCode, rec.summary, Some(rec.vector))])
  {
  }

  /** A document that fails inside a batch does not keep the next one from being stored. */
  lemma FailedDocDoesNotAbortBatch(x: Doc, y: Doc, s: Services, persist: Persist)
    requires ProcessDoc(x, s).None?
    ensures BatchRows([x, y], s, persist) == DocRows(y, s, persist)
  {
    assert [x, y][..1] == [x];
    assert [x][..0] == [];
    assert BatchRows([x], s, persist) == [];
  }

  // ---------------------------------------------------------------- the run

  /** The state one call of `indexGithubRepo` changes. */
  class IndexingRun {
    var processedFiles: int  // `processedFiles` of the project record
    var rows: seq<Row>       // the project's `SourceCodeEmbedding` rows
    var pauses: nat          // pauses taken between batches

    constructor(processedFiles: int, rows: seq<Row>)
      ensures this.processedFiles == processedFiles && this.rows == rows && this.pauses == 0
    {
      this.processedFiles := processedFiles;
      this.rows := rows;
      this.pauses := 0;
    }

    /** The `Promise.all` over the batch's results: each one is cleaned and written. */
    method StoreResults(results: seq<Option<Embedded>>, persist: Persist)
      modifies this
      ensures rows == old(rows) + ResultsRows(results, persist)
      ensures processedFiles == old(processedFiles) && pauses == old(pauses)
    {
      var i := 0;
      while i < |results|
        invariant 0 <= i <= |results|
        invariant rows == old(rows) + ResultsRows(results[..i], persist)
        invariant processedFiles == old(processedFiles) && pauses == old(pauses)
      {
        assert results[..i + 1][..i] == results[..i];
        match results[i] {
          case None =>
          case Some(embedded) =>
            var rec := Sanitize(embedded);
            match persist(rec) {
              case CreateFailed =>
              case VectorFailed =>
                rows := rows + [Row(rec.fileName, rec.sourceCode, rec.summary, None)];
              case Written =>
                rows := rows + [Row(rec.fileName, rec.sourceCode, rec.summary, Some(rec.vector))];
            }
        }
        i := i + 1;
      }
      assert results[..i] == results;
    }

    /** One iteration of the batch loop, without the pause. */
    method IndexBatch(batch: seq<Doc>, s: Services, persist: Persist)
      modifies this
      ensures processedFiles == old(processedFiles) + 1
      ensures rows == old(rows) + BatchRows(batch, s, persist)
      ensures pauses == old(pauses)
    {
      processedFiles := processedFiles + 1;
      var results := EmbedBatch(batch, s);
      EmbedBatchRows(batch, s, persist);
      StoreResults(results, persist);
    }

    /** The batch loop of `indexGithubRepo`. */
    method IndexBatches(batches: seq<seq<Doc>>, s: Services, persist: Persist)
      modifies this
      ensures processedFiles == old(processedFiles) + |batches|
      ensures rows == old(rows) + RunRows(batches, s, persist)
      ensures pauses == old(pauses) + Pauses(|batches|)
    {
      var i := 0;
      ghost var start := rows;
      assert RunRows(batches[..0], s, persist) == [];
      while i < |batches|
        invariant 0 <= i <= |batches|
        invariant processedFiles == old(processedFiles) + i
        invariant rows == start + RunRows(batches[..i], s, persist)
        invariant pauses == old(pauses) + (if i < |batches| then i else Pauses(|batches|))
      {
        RunRowsStep(batches, i, start, s, persist);
        IndexBatch(batches[i], s, persist);
        if i < |batches| - 1 {
          pauses := pauses + 1;
        }
        i := i + 1;
      }
      assert batches[..i] == batches;
    }

    /**
     * `indexGithubRepo`, given what `loadGithubRepo` returned: a load error is rethrown with
     * nothing written; otherwise every document is indexed in batches of `BatchSize`.
     */
    method IndexGithubRepo(loaded: Result<seq<Doc>, LoadError>, s: Services, persist: Persist)
      returns (r: Result<(), LoadError>)
      modifies this
      ensures loaded.Failure? ==> r == Failure(loaded.error)
      ensures loaded.Failure? ==> processedFiles == old(processedFiles) && rows == old(rows) && pauses == old(pauses)
      ensures loaded.Success? ==> r == Success(())
      ensures loaded.Success? ==> processedFiles == old(processedFiles) + |loaded.value|
      ensures loaded.Success? ==> rows == old(rows) + BatchRows(loaded.value, s, persist)
      ensures loaded.Success? ==> pauses == old(pauses) + Pauses(|loaded.value|)
    {
      if loaded.Failure? {
        return Failure(loaded.error);
      }
      var docs := loaded.value;
      var batches := MakeBatches(docs, BatchSize);
      BatchesConcat(docs, BatchSize);
      SingletonBatches(docs);
      IndexBatches(batches, s, persist);
      RunRowsIsBatchRowsOfAll(batches, s, persist);
      return Success(());
    }
  }
}
