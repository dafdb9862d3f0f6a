/**
 * SearchManager.UpdateContent: the sections of a document (one per parsed
 * page) are cut into batches of at most 1000; each batch becomes a list of
 * search documents whose ids are derived from the file name and the
 * section's position, the batch's texts are embedded when an embeddings
 * client is configured, and the batch is uploaded to the search index.
 *
 * The search service is a client object that logs every upload. The
 * embeddings client is seen through its CreateEmbeddings call only: a
 * provider whose k-th call with a list of texts answers answer(k, texts),
 * and which logs its calls. (What OpenAIEmbeddings.CreateEmbeddings answers
 * is specified in the Embeddings module.)
 */
module SearchManager {
  import opened Wrappers
  import opened Text
  import opened Batching
  import opened Files
  import opened BlobManager
  import opened Paths
  import PdfParser
  import Embeddings

  /** One page of a file, to be indexed under the file's optional category. */
  datatype Section = Section(splitPage: PdfParser.Page, content: File, category: Option<string>)

  /** A search document as it is uploaded. */
  datatype Document = Document(id: string, content: string, category: Option<string>, sourcepage: string,
                               sourcefile: string, embedding: seq<Embeddings.Float>)

  /**
   * How UpdateContent throws: CreateEmbeddings throws, a reply has fewer
   * items than the batch has texts, or the search service rejects an upload.
   */
  datatype UpdateError = EmbeddingsFailed(error: Embeddings.EmbeddingsError) | MissingEmbedding | UploadFailed

  /**
   * Whether the search service takes an upload of the given documents after
   * the given number of uploads it has taken.
   */
  type Accepts = (nat, seq<Document>) -> bool

  const MaxBatchSize: nat := 1000

  class SearchClient {
    /** The service's answer to each upload. */
    const accepts: Accepts
    /** The documents of every upload the service has taken so far, in order. */
    var uploads: seq<seq<Document>>

    constructor(accepts: Accepts)
      ensures this.accepts == accepts && uploads == []
    {
      this.accepts := accepts;
      uploads := [];
    }

    /** UploadDocumentsAsync: one upload of a list of documents, which throws when the service rejects it. */
    method UploadDocuments(documents: seq<Document>) returns (r: Result<(), UpdateError>)
      modifies this
      ensures accepts(|old(uploads)|, documents) ==> r.Ok? && uploads == old(uploads) + [documents]
      ensures !accepts(|old(uploads)|, documents) ==> r == Err(UploadFailed) && uploads == old(uploads)
    {
      if accepts(|uploads|, documents) {
        uploads := uploads + [documents];
        r := Ok(());
      } else {
        r := Err(UploadFailed);
      }
    }
  }

  /** What a call to CreateEmbeddings gives: the items, or the exception it throws. */
  type Answer = (nat, seq<string>) -> Result<seq<Embeddings.EmbeddingItem>, Embeddings.EmbeddingsError>

  class EmbeddingsProvider {
    /** The answer to the k-th call, given the texts it carries. */
    const answer: Answer
    /** The texts of every call so far, in order. */
    var calls: seq<seq<string>>

    constructor(answer: Answer)
      ensures this.answer == answer && calls == []
    {
      this.answer := answer;
      calls := [];
    }

    /** CreateEmbeddings: one call. */
    method CreateEmbeddings(inputs: seq<string>) returns (r: Result<seq<Embeddings.EmbeddingItem>, Embeddings.EmbeddingsError>)
      modifies this
      ensures r == answer(|old(calls)|, inputs) && calls == old(calls) + [inputs]
    {
      r := answer(|calls|, inputs);
      calls := calls + [inputs];
    }
  }

  // ---------------------------------------------------------------------
  // Building the documents of a batch
  // ---------------------------------------------------------------------

  /**
   * The document of the section at position `index` of the input, before any
   * embedding is attached: its id is the file's id prefix, "-page-" and the
   * position; the source page is computed from the page number.
   */
  function NewDocument(section: Section, index: nat): (d: Document)
    ensures d.id == DocumentId(section.content.Filename(), index)
    ensures d.content == section.splitPage.text && d.category == section.category
    ensures d.sourcepage == SourcepageFromFilePage(section.content.Filename(), section.splitPage.pageNum)
    ensures d.sourcefile == section.content.Filename() && d.embedding == []
  {
    var filename := section.content.Filename();
    Document(DocumentId(filename, index), section.splitPage.text, section.category,
             SourcepageFromFilePage(filename, section.splitPage.pageNum), filename, [])
  }

  /** The id of the document of the section at position `index` of a file's sections. */
  function DocumentId(filename: string, index: nat): (id: string)
    ensures var prefix := FilenameToId(filename) + "-page-";
      && |prefix| < |id| && id[..|prefix|] == prefix
      && (forall i :: |prefix| <= i < |id| ==> IsDigit(id[i]))
      && DigitsValue(id[|prefix|..]) == index
  {
    var prefix := FilenameToId(filename) + "-page-";
    var id := prefix + NatToString(index);
    assert id[|prefix|..] == NatToString(index);
    NatToStringRoundTrip(index);
    id
  }

  /** The position in the input of section i of batch number `batchIndex`. */
  function Position(i: nat, batchIndex: nat): nat
  {
    i + batchIndex * MaxBatchSize
  }

  /** The Select over batch number `batchIndex`: each section's document, numbered by its position in the input. */
  function BatchDocuments(batch: seq<Section>, batchIndex: nat): (documents: seq<Document>)
    ensures |documents| == |batch|
    ensures forall i :: 0 <= i < |batch| ==> documents[i] == NewDocument(batch[i], Position(i, batchIndex))
  {
    seq(|batch|, i requires 0 <= i < |batch| => NewDocument(batch[i], Position(i, batchIndex)))
  }

  /** The texts sent for embedding: the page texts of the batch, in order. */
  function Texts(batch: seq<Section>): (texts: seq<string>)
    ensures |texts| == |batch|
    ensures forall i :: 0 <= i < |batch| ==> texts[i] == batch[i].splitPage.text
  {
    seq(|batch|, i requires 0 <= i < |batch| => batch[i].splitPage.text)
  }

  /** Two documents that agree on every field but the embedding. */
  predicate SameButEmbedding(d: Document, e: Document)
  {
    d.id == e.id && d.content == e.content && d.category == e.category &&
    d.sourcepage == e.sourcepage && d.sourcefile == e.sourcefile
  }

  /**
   * The embedding loop: document i takes the vector of item i; indexing an
   * item that is not there throws.
   */
  function Attached(documents: seq<Document>, items: seq<Embeddings.EmbeddingItem>): Result<seq<Document>, UpdateError>
  {
    if |items| < |documents| then Err(MissingEmbedding)
    else Ok(seq(|documents|, i requires 0 <= i < |documents| => documents[i].(embedding := items[i].embedding)))
  }

  /**
   * Attaching fails exactly when there are fewer items than documents;
   * otherwise each document keeps every other field and gets the vector of
   * the item at its own position.
   */
  lemma AttachedSpec(documents: seq<Document>, items: seq<Embeddings.EmbeddingItem>)
    ensures Attached(documents, items).Err? <==> |items| < |documents|
    ensures Attached(documents, items).Ok? ==>
      var docs := Attached(documents, items).value;
      && |docs| == |documents|
      && forall i :: 0 <= i < |docs| ==>
           SameButEmbedding(docs[i], documents[i]) && docs[i].embedding == items[i].embedding
  {
  }

  /**
   * The embedding loop: each document in turn takes the vector of the item
   * at its own index, giving up when the reply has no such item. The source
   * writes into the document objects; here a new sequence is built.
   */
  method AttachEmbeddings(documents: seq<Document>, items: seq<Embeddings.EmbeddingItem>)
    returns (r: Result<seq<Document>, UpdateError>)
    ensures r == Attached(documents, items)
  {
    var docs := documents;
    for i := 0 to |docs|
      invariant |docs| == |documents| && i <= |items|
      invariant forall k :: 0 <= k < i ==> docs[k] == documents[k].(embedding := items[k].embedding)
      invariant forall k :: i <= k < |docs| ==> docs[k] == documents[k]
    {
      if i >= |items| {
        return Err(MissingEmbedding);
      }
      docs := docs[i := docs[i].(embedding := items[i].embedding)];
    }
    assert docs == Attached(documents, items).value;
    r := Ok(docs);
  }

  // ---------------------------------------------------------------------
  // Specification of a whole call
  // ---------------------------------------------------------------------

  /** One batch's documents ready for upload, or the error that stops the call; and the embeddings calls made. */
  datatype BatchResult = BatchResult(documents: Result<seq<Document>, UpdateError>, sent: seq<seq<string>>)

  /**
   * Batch number b, with the embeddings provider at call number n: its
   * documents, with the vectors of its texts attached when a provider is
   * configured.
   */
  function BatchStep(batch: seq<Section>, b: nat, embedder: Option<Answer>, n: nat): BatchResult
  {
    var documents := BatchDocuments(batch, b);
    match embedder
    case None => BatchResult(Ok(documents), [])
    case Some(answer) =>
      match answer(n, Texts(batch))
      case Err(error) => BatchResult(Err(EmbeddingsFailed(error)), [Texts(batch)])
      case Ok(items) => BatchResult(Attached(documents, items), [Texts(batch)])
  }

  /** The uploads and the embedding requests of a call, and how it ends. */
  datatype Outcome = Outcome(uploads: seq<seq<Document>>, requests: seq<seq<string>>, result: Result<(), UpdateError>)

  /**
   * The outcome of the call once the batches before number b have made the
   * uploads `uploads` and the embeddings calls `requests`, the provider
   * having answered n calls and the search service having taken u uploads
   * before this call. Each remaining batch is prepared and uploaded in turn;
   * the first failure ends the call: a batch that cannot be prepared is not
   * uploaded, and an upload the service rejects is not taken.
   */
  function Update(batches: seq<seq<Section>>, b: nat, embedder: Option<Answer>, n: nat, accepts: Accepts, u: nat,
                  uploads: seq<seq<Document>>, requests: seq<seq<string>>): Outcome
    requires b <= |batches|
    decreases |batches| - b
  {
    if b == |batches| then Outcome(uploads, requests, Ok(()))
    else
      var step := BatchStep(batches[b], b, embedder, n + |requests|);
      if step.documents.Err? then Outcome(uploads, requests + step.sent, Err(step.documents.error))
      else if !accepts(u + |uploads|, step.documents.value) then Outcome(uploads, requests + step.sent, Err(UploadFailed))
      else Update(batches, b + 1, embedder, n, accepts, u, uploads + [step.documents.value], requests + step.sent)
  }

  // ---------------------------------------------------------------------
  // The method
  // ---------------------------------------------------------------------

  class SearchManager {
    /** The embeddings provider, or null when vectors are not computed. */
    const embeddings: EmbeddingsProvider?
    const searchClient: SearchClient

    constructor(searchClient: SearchClient, embeddings: EmbeddingsProvider?)
      ensures this.searchClient == searchClient && this.embeddings == embeddings
    {
      this.searchClient := searchClient;
      this.embeddings := embeddings;
    }

    function ConfiguredEmbedder(): Option<Answer>
    {
      if embeddings == null then None else Some(embeddings.answer)
    }

    /** The embeddings provider, when there is one. */
    function EmbeddingsClient(): set<object>
    {
      if embeddings == null then {} else {embeddings}
    }

    /** The embeddings calls made so far (none without a provider). */
    function Requests(): seq<seq<string>>
      reads EmbeddingsClient()
    {
      if embeddings == null then [] else embeddings.calls
    }

    /**
     * UpdateContent: the uploads and the embeddings requests are those of
     * the outcome over the 1000-section batches of `sections`, and so is the
     * way the call ends.
     */
    method UpdateContent(sections: seq<Section>) returns (r: Result<(), UpdateError>)
      modifies searchClient, EmbeddingsClient()
      ensures var o := Update(Chunks(sections, MaxBatchSize), 0, ConfiguredEmbedder(), |old(Requests())|,
                              searchClient.accepts, |old(searchClient.uploads)|, [], []);
        && searchClient.uploads == old(searchClient.uploads) + o.uploads
        && Requests() == old(Requests()) + o.requests
        && r == o.result
    {
      var sectionBatches := SplitIntoBatches(sections, MaxBatchSize);
      ghost var e := ConfiguredEmbedder();
      ghost var n0 := |Requests()|;
      ghost var u0 := |searchClient.uploads|;
      ghost var outcome := Update(sectionBatches, 0, e, n0, searchClient.accepts, u0, [], []);
      ghost var uploaded: seq<seq<Document>> := [];
      ghost var requested: seq<seq<string>> := [];
      for batchIndex := 0 to |sectionBatches|
        invariant searchClient.uploads == old(searchClient.uploads) + uploaded
        invariant Requests() == old(Requests()) + requested
        invariant outcome == Update(sectionBatches, batchIndex, e, n0, searchClient.accepts, u0, uploaded, requested)
      {
        var uploadResult, documents, sent := UploadBatch(sectionBatches, batchIndex, n0, u0, uploaded, requested);
        AppendAssoc(old(Requests()), requested, sent);
        if uploadResult.Err? {
          return uploadResult;
        }
        AppendAssoc(old(searchClient.uploads), uploaded, [documents]);
        uploaded := uploaded + [documents];
        requested := requested + sent;
      }
      r := Ok(());
    }

    /**
     * One turn of the batch loop: the batch is prepared and, unless that
     * throws, uploaded; unless the upload throws, the call's outcome is that
     * of the remaining batches.
     */
    method UploadBatch(batches: seq<seq<Section>>, b: nat, ghost n: nat, ghost u: nat,
                       ghost uploads: seq<seq<Document>>, ghost requests: seq<seq<string>>)
      returns (r: Result<(), UpdateError>, ghost documents: seq<Document>, ghost sent: seq<seq<string>>)
      requires b < |batches| && |Requests()| == n + |requests| && |searchClient.uploads| == u + |uploads|
      modifies searchClient, EmbeddingsClient()
      ensures Requests() == old(Requests()) + sent
      ensures r.Err? ==>
        && searchClient.uploads == old(searchClient.uploads)
        && Update(batches, b, ConfiguredEmbedder(), n, searchClient.accepts, u, uploads, requests)
           == Outcome(uploads, requests + sent, r)
      ensures r.Ok? ==>
        && searchClient.uploads == old(searchClient.uploads) + [documents]
        && Update(batches, b, ConfiguredEmbedder(), n, searchClient.accepts, u, uploads, requests)
           == Update(batches, b + 1, ConfiguredEmbedder(), n, searchClient.accepts, u, uploads + [documents], requests + sent)
    {
      ghost var step := BatchStep(batches[b], b, ConfiguredEmbedder(), n + |requests|);
      sent := step.sent;
      var prepared := PrepareBatch(batches[b], b);
      if prepared.Err? {
        UpdateStops(batches, b, ConfiguredEmbedder(), n, searchClient.accepts, u, uploads, requests);
        return Err(prepared.error), [], sent;
      }
      documents := prepared.value;
      if !searchClient.accepts(|searchClient.uploads|, documents) {
        UpdateRejected(batches, b, ConfiguredEmbedder(), n, searchClient.accepts, u, uploads, requests);
      } else {
        UpdateGoesOn(batches, b, ConfiguredEmbedder(), n, searchClient.accepts, u, uploads, requests, documents, sent);
      }
      r := searchClient.UploadDocuments(prepared.value);
    }

    /**
     * The body of the batch loop up to the upload: the Select that builds the
     * documents, then the embeddings call and the loop that attaches them.
     */
    method PrepareBatch(batch: seq<Section>, batchIndex: nat) returns (documents: Result<seq<Document>, UpdateError>)
      modifies EmbeddingsClient()
      ensures var step := BatchStep(batch, batchIndex, ConfiguredEmbedder(), |old(Requests())|);
        documents == step.documents && Requests() == old(Requests()) + step.sent
    {
      var docs := BatchDocuments(batch, batchIndex);
      if embeddings == null {
        assert old(Requests()) + [] == old(Requests());
        return Ok(docs);
      }
      var items := embeddings.CreateEmbeddings(Texts(batch));
      if items.Err? {
        return Err(EmbeddingsFailed(items.error));
      }
      documents := AttachEmbeddings(docs, items.value);
    }
  }

  // ---------------------------------------------------------------------
  // Steps of the loop
  // ---------------------------------------------------------------------

  /** A batch that cannot be prepared ends the call with its error, after its calls and before its upload. */
  lemma UpdateStops(batches: seq<seq<Section>>, b: nat, embedder: Option<Answer>, n: nat, accepts: Accepts, u: nat,
                    uploads: seq<seq<Document>>, requests: seq<seq<string>>)
    requires b < |batches|
    requires BatchStep(batches[b], b, embedder, n + |requests|).documents.Err?
    ensures var step := BatchStep(batches[b], b, embedder, n + |requests|);
      Update(batches, b, embedder, n, accepts, u, uploads, requests) == Outcome(uploads, requests + step.sent, Err(step.documents.error))
  {
  }

  /** A prepared batch whose upload the service rejects ends the call, after its calls and with nothing taken. */
  lemma UpdateRejected(batches: seq<seq<Section>>, b: nat, embedder: Option<Answer>, n: nat, accepts: Accepts, u: nat,
                       uploads: seq<seq<Document>>, requests: seq<seq<string>>)
    requires b < |batches|
    requires var step := BatchStep(batches[b], b, embedder, n + |requests|);
      step.documents.Ok? && !accepts(u + |uploads|, step.documents.value)
    ensures var step := BatchStep(batches[b], b, embedder, n + |requests|);
      Update(batches, b, embedder, n, accepts, u, uploads, requests) == Outcome(uploads, requests + step.sent, Err(UploadFailed))
  {
  }

  /** A prepared batch whose upload the service takes is uploaded, and the call goes on with the next batch. */
  lemma UpdateGoesOn(batches: seq<seq<Section>>, b: nat, embedder: Option<Answer>, n: nat, accepts: Accepts, u: nat,
                     uploads: seq<seq<Document>>, requests: seq<seq<string>>,
                     documents: seq<Document>, sent: seq<seq<string>>)
    requires b < |batches|
    requires BatchStep(batches[b], b, embedder, n + |requests|) == BatchResult(Ok(documents), sent)
    requires accepts(u + |uploads|, documents)
    ensures Update(batches, b, embedder, n, accepts, u, uploads, requests)
            == Update(batches, b + 1, embedder, n, accepts, u, uploads + [documents], requests + sent)
  {
  }

  // ---------------------------------------------------------------------
  // What a call uploads
  // ---------------------------------------------------------------------

  /**
   * The vector a document of a batch carries: none without a provider; with
   * one, the vector of item i of the answer to the batch's call.
   */
  predicate EmbeddedAs(d: Document, embedder: Option<Answer>, call: nat, batch: seq<Section>, i: nat)
  {
    match embedder
    case None => d.embedding == []
    case Some(answer) =>
      var reply := answer(call, Texts(batch));
      reply.Ok? && i < |reply.value| && d.embedding == reply.value[i].embedding
  }

  /**
   * The upload of batch number b, whose texts went out as embeddings call
   * number `call`: one document per section, in order, each the section's
   * document with its vector.
   */
  predicate IsUploadOf(documents: seq<Document>, batch: seq<Section>, b: nat, embedder: Option<Answer>, call: nat)
  {
    && |documents| == |batch|
    && forall i :: 0 <= i < |batch| ==>
         SameButEmbedding(documents[i], BatchDocuments(batch, b)[i]) && EmbeddedAs(documents[i], embedder, call, batch, i)
  }

  /** Whether preparing a batch fails: the provider throws, or answers with fewer items than there are texts. */
  predicate BatchFails(batch: seq<Section>, embedder: Option<Answer>, call: nat)
  {
    match embedder
    case None => false
    case Some(answer) =>
      var reply := answer(call, Texts(batch));
      reply.Err? || |reply.value| < |batch|
  }

  /**
   * One batch: it sends its texts exactly when a provider is configured; it
   * fails exactly when the provider throws (with that exception) or answers
   * short (MissingEmbedding); otherwise its documents are the batch's upload.
   */
  lemma BatchStepSpec(batch: seq<Section>, b: nat, embedder: Option<Answer>, call: nat)
    ensures var step := BatchStep(batch, b, embedder, call);
      && step.sent == (if embedder.None? then [] else [Texts(batch)])
      && (step.documents.Err? <==> BatchFails(batch, embedder, call))
      && (step.documents.Err? ==>
            var reply := embedder.value(call, Texts(batch));
            step.documents.error == if reply.Err? then EmbeddingsFailed(reply.error) else MissingEmbedding)
  {
  }

  /** A batch that is prepared gives its upload: the batch's documents, each with its vector. */
  lemma BatchStepUpload(batch: seq<Section>, b: nat, embedder: Option<Answer>, call: nat)
    requires BatchStep(batch, b, embedder, call).documents.Ok?
    ensures IsUploadOf(BatchStep(batch, b, embedder, call).documents.value, batch, b, embedder, call)
  {
    if embedder.None? {
      UploadWithoutProvider(batch, b, call);
    } else {
      UploadWithProvider(batch, b, embedder.value, call);
    }
  }

  /** Without a provider, the upload is the batch's documents as they are, with no vectors. */
  lemma UploadWithoutProvider(batch: seq<Section>, b: nat, call: nat)
    ensures BatchStep(batch, b, None, call).documents == Ok(BatchDocuments(batch, b))
    ensures IsUploadOf(BatchDocuments(batch, b), batch, b, None, call)
  {
    var documents := BatchDocuments(batch, b);
    forall i | 0 <= i < |batch|
      ensures SameButEmbedding(documents[i], documents[i]) && EmbeddedAs(documents[i], None, call, batch, i)
    {
      assert documents[i] == NewDocument(batch[i], Position(i, b));
    }
  }

  /** With a provider whose answer covers the batch, each document takes the vector of its own item. */
  lemma UploadWithProvider(batch: seq<Section>, b: nat, answer: Answer, call: nat)
    requires BatchStep(batch, b, Some(answer), call).documents.Ok?
    ensures IsUploadOf(BatchStep(batch, b, Some(answer), call).documents.value, batch, b, Some(answer), call)
  {
    var documents := BatchDocuments(batch, b);
    var reply := answer(call, Texts(batch));
    assert BatchStep(batch, b, Some(answer), call).documents == Attached(documents, reply.value);
    AttachedSpec(documents, reply.value);
  }

  /**
   * The uploads of a call from batch b on: the earlier uploads are kept and
   * at most one more per remaining batch is made; the call succeeds exactly
   * when every batch is uploaded, and when it fails, the first batch not
   * uploaded is the one whose preparation failed, with that batch's error.
   */
  lemma {:induction false} UpdateUploadCount(batches: seq<seq<Section>>, b: nat, embedder: Option<Answer>, n: nat, accepts: Accepts, u: nat,
                                             uploads: seq<seq<Document>>, requests: seq<seq<string>>)
    requires b <= |batches|
    ensures var o := Update(batches, b, embedder, n, accepts, u, uploads, requests);
      && |uploads| <= |o.uploads| <= |uploads| + |batches| - b
      && o.uploads[..|uploads|] == uploads
      && (o.result.Ok? <==> |o.uploads| == |uploads| + |batches| - b)
      && (o.result.Err? ==>
            var m := |o.uploads| - |uploads|;
            && b + m < |batches|
            && var step := BatchStep(batches[b + m], b + m, embedder, n + |requests| + m);
               || step.documents == Err(o.result.error)
               || (step.documents.Ok? && !accepts(u + |uploads| + m, step.documents.value) && o.result.error == UploadFailed))
    decreases |batches| - b
  {
    if b < |batches| {
      var step := BatchStep(batches[b], b, embedder, n + |requests|);
      BatchStepSpec(batches[b], b, embedder, n + |requests|);
      if step.documents.Ok? && accepts(u + |uploads|, step.documents.value) {
        var uploads', requests' := uploads + [step.documents.value], requests + step.sent;
        UpdateUploadCount(batches, b + 1, embedder, n, accepts, u, uploads', requests');
        var o := Update(batches, b, embedder, n, accepts, u, uploads, requests);
        assert o.uploads[..|uploads|] == o.uploads[..|uploads'|][..|uploads|] == uploads;
        if embedder.Some? {
          assert |requests'| == |requests| + 1;
        }
      }
    }
  }

  /**
   * Each upload a call makes is that of the next batch, in order: upload j
   * holds the documents batch j gives when its texts go out as embeddings
   * call n + j. (From batch b on, with one upload and, given a provider, one
   * call per earlier batch.)
   */
  lemma {:induction false} UpdateUploads(batches: seq<seq<Section>>, b: nat, embedder: Option<Answer>, n: nat, accepts: Accepts, u: nat,
                                         uploads: seq<seq<Document>>, requests: seq<seq<string>>)
    requires b <= |batches| && |uploads| == b && (embedder.Some? ==> |requests| == b)
    ensures var o := Update(batches, b, embedder, n, accepts, u, uploads, requests);
      forall j :: b <= j < |o.uploads| ==> UploadedAs(batches, embedder, n, accepts, u, o.uploads, j)
    decreases |batches| - b
  {
    if b < |batches| {
      var step := BatchStep(batches[b], b, embedder, n + |requests|);
      if step.documents.Ok? && accepts(u + |uploads|, step.documents.value) {
        var uploads', requests' := uploads + [step.documents.value], requests + step.sent;
        BatchStepCall(batches[b], b, embedder, n, requests);
        UpdateGoesOn(batches, b, embedder, n, accepts, u, uploads, requests, step.documents.value, step.sent);
        UpdateKeepsUploads(batches, b + 1, embedder, n, accepts, u, uploads', requests');
        UpdateUploads(batches, b + 1, embedder, n, accepts, u, uploads', requests');
        KeptUpload(Update(batches, b + 1, embedder, n, accepts, u, uploads', requests').uploads, uploads', b);
      }
    }
  }

  /**
   * Upload j of a call is batch j's documents, with the texts sent as
   * embeddings call n + j, and the search service took it as upload u + j.
   */
  predicate UploadedAs(batches: seq<seq<Section>>, embedder: Option<Answer>, n: nat, accepts: Accepts, u: nat,
                       all: seq<seq<Document>>, j: nat)
    requires j < |all|
  {
    && j < |batches|
    && BatchStep(batches[j], j, embedder, n + j).documents == Ok(all[j])
    && accepts(u + j, all[j])
  }

  /** A call only adds uploads after those it started with. */
  lemma {:induction false} UpdateKeepsUploads(batches: seq<seq<Section>>, b: nat, embedder: Option<Answer>, n: nat, accepts: Accepts, u: nat,
                                              uploads: seq<seq<Document>>, requests: seq<seq<string>>)
    requires b <= |batches|
    ensures var o := Update(batches, b, embedder, n, accepts, u, uploads, requests);
      |uploads| <= |o.uploads| && o.uploads[..|uploads|] == uploads
    decreases |batches| - b
  {
    if b < |batches| {
      var step := BatchStep(batches[b], b, embedder, n + |requests|);
      if step.documents.Ok? && accepts(u + |uploads|, step.documents.value) {
        var uploads' := uploads + [step.documents.value];
        UpdateKeepsUploads(batches, b + 1, embedder, n, accepts, u, uploads', requests + step.sent);
        var o := Update(batches, b, embedder, n, accepts, u, uploads, requests);
        assert o.uploads[..|uploads|] == o.uploads[..|uploads'|][..|uploads|];
      }
    }
  }

  /** An upload among those a call started with is still there at the end. */
  lemma KeptUpload(all: seq<seq<Document>>, before: seq<seq<Document>>, j: nat)
    requires |before| <= |all| && all[..|before|] == before && j < |before|
    ensures all[j] == before[j]
  {
    assert all[j] == all[..|before|][j];
  }

  /** A batch's step depends on the call number only when a provider is configured; with one, it sends one request. */
  lemma BatchStepCall(batch: seq<Section>, b: nat, embedder: Option<Answer>, n: nat, requests: seq<seq<string>>)
    requires embedder.Some? ==> |requests| == b
    ensures BatchStep(batch, b, embedder, n + b) == BatchStep(batch, b, embedder, n + |requests|)
    ensures embedder.Some? ==> |BatchStep(batch, b, embedder, n + b).sent| == 1
  {
  }

  /**
   * The embeddings calls of a call from batch b on: none without a provider;
   * with one, the texts of each batch the call reached, in order: one call
   * per uploaded batch, and one more for the batch that failed.
   */
  lemma {:induction false} UpdateRequests(batches: seq<seq<Section>>, b: nat, embedder: Option<Answer>, n: nat, accepts: Accepts, u: nat,
                                          uploads: seq<seq<Document>>, requests: seq<seq<string>>)
    requires b <= |batches| && (embedder.Some? ==> |requests| == b)
    ensures var o := Update(batches, b, embedder, n, accepts, u, uploads, requests);
      && (embedder.None? ==> o.requests == requests)
      && (embedder.Some? ==>
            && b <= |o.requests| <= |batches|
            && o.requests[..b] == requests
            && (forall j :: b <= j < |o.requests| ==> o.requests[j] == Texts(batches[j]))
            && |o.requests| - b == |o.uploads| - |uploads| + (if o.result.Err? then 1 else 0))
    decreases |batches| - b
  {
    if b < |batches| {
      var step := BatchStep(batches[b], b, embedder, n + |requests|);
      if step.documents.Ok? && accepts(u + |uploads|, step.documents.value) {
        BatchStepSpec(batches[b], b, embedder, n + |requests|);
        UpdateRequests(batches, b + 1, embedder, n, accepts, u, uploads + [step.documents.value], requests + step.sent);
      }
      UpdateRequestsStep(batches, b, embedder, n, accepts, u, uploads, requests);
    }
  }

  /** The requests of outcome o of a call from batch b, as UpdateRequests states them. */
  predicate RequestsFrom(batches: seq<seq<Section>>, b: nat, embedder: Option<Answer>, uploads: seq<seq<Document>>,
                         requests: seq<seq<string>>, o: Outcome)
  {
    && (embedder.None? ==> o.requests == requests)
    && (embedder.Some? ==>
          && b <= |o.requests| <= |batches|
          && o.requests[..b] == requests
          && (forall j :: b <= j < |o.requests| ==> o.requests[j] == Texts(batches[j]))
          && |o.requests| - b == |o.uploads| - |uploads| + (if o.result.Err? then 1 else 0))
  }

  /** One step of UpdateRequests: batch b's request comes first, then those of the rest of the call. */
  lemma UpdateRequestsStep(batches: seq<seq<Section>>, b: nat, embedder: Option<Answer>, n: nat, accepts: Accepts, u: nat,
                           uploads: seq<seq<Document>>, requests: seq<seq<string>>)
    requires b < |batches| && (embedder.Some? ==> |requests| == b)
    requires var step := BatchStep(batches[b], b, embedder, n + |requests|);
      step.documents.Ok? && accepts(u + |uploads|, step.documents.value) ==>
        RequestsFrom(batches, b + 1, embedder, uploads + [step.documents.value], requests + step.sent,
                     Update(batches, b + 1, embedder, n, accepts, u, uploads + [step.documents.value], requests + step.sent))
    ensures RequestsFrom(batches, b, embedder, uploads, requests, Update(batches, b, embedder, n, accepts, u, uploads, requests))
  {
    var step := BatchStep(batches[b], b, embedder, n + |requests|);
    var sent := if embedder.None? then [] else [Texts(batches[b])];
    assert step.sent == sent;
    var requests' := requests + sent;
    var o := Update(batches, b, embedder, n, accepts, u, uploads, requests);
    if step.documents.Ok? && accepts(u + |uploads|, step.documents.value) {
      var uploads' := uploads + [step.documents.value];
      assert o == Update(batches, b + 1, embedder, n, accepts, u, uploads', requests');
      assert RequestsFrom(batches, b + 1, embedder, uploads', requests', o);
      if embedder.Some? {
        assert o.requests[..b] == o.requests[..b + 1][..b] == requests;
        assert o.requests[b] == o.requests[..b + 1][b] == requests'[b];
      }
    } else {
      assert o == Outcome(uploads, requests', o.result) && o.result.Err?;
    }
  }

  /**
   * A call that succeeds makes one upload per batch, each with one document
   * per section of its batch; document i of upload j is, but for its vector,
   * the document of the section at position i + j * 1000 of the input.
   */
  lemma UploadedSections(sections: seq<Section>, embedder: Option<Answer>, n: nat, accepts: Accepts, u: nat)
    ensures var batches := Chunks(sections, MaxBatchSize);
      var o := Update(batches, 0, embedder, n, accepts, u, [], []);
      o.result.Ok? ==>
        && |o.uploads| == |batches|
        && (forall j :: 0 <= j < |o.uploads| ==> |o.uploads[j]| == |batches[j]|)
        && forall j, i :: 0 <= j < |o.uploads| && 0 <= i < |o.uploads[j]| ==>
             && Position(i, j) < |sections|
             && SameButEmbedding(o.uploads[j][i], NewDocument(sections[Position(i, j)], Position(i, j)))
  {
    var batches := Chunks(sections, MaxBatchSize);
    var o := Update(batches, 0, embedder, n, accepts, u, [], []);
    UpdateUploadCount(batches, 0, embedder, n, accepts, u, [], []);
    if o.result.Ok? {
      forall j | 0 <= j < |o.uploads|
        ensures |o.uploads[j]| == |batches[j]|
        ensures forall i :: 0 <= i < |o.uploads[j]| ==>
             && Position(i, j) < |sections|
             && SameButEmbedding(o.uploads[j][i], NewDocument(sections[Position(i, j)], Position(i, j)))
      {
        UploadedBatch(sections, embedder, n, accepts, u, j);
      }
    }
  }

  /** The upload of batch j of a call is the upload of that batch's sections. */
  lemma UploadedBatch(sections: seq<Section>, embedder: Option<Answer>, n: nat, accepts: Accepts, u: nat, j: nat)
    requires j < |Update(Chunks(sections, MaxBatchSize), 0, embedder, n, accepts, u, [], []).uploads|
    ensures var o := Update(Chunks(sections, MaxBatchSize), 0, embedder, n, accepts, u, [], []);
      && j < |Chunks(sections, MaxBatchSize)|
      && |o.uploads[j]| == |Chunks(sections, MaxBatchSize)[j]|
      && forall i :: 0 <= i < |o.uploads[j]| ==>
           && Position(i, j) < |sections|
           && SameButEmbedding(o.uploads[j][i], NewDocument(sections[Position(i, j)], Position(i, j)))
  {
    var batches := Chunks(sections, MaxBatchSize);
    var o := Update(batches, 0, embedder, n, accepts, u, [], []);
    UpdateUploads(batches, 0, embedder, n, accepts, u, [], []);
    assert UploadedAs(batches, embedder, n, accepts, u, o.uploads, j);
    UploadedBatchOf(sections, j, o.uploads[j], embedder, n + j);
  }

  /** The documents prepared from batch j are, but for their vectors, the documents of that batch's sections. */
  lemma UploadedBatchOf(sections: seq<Section>, j: nat, documents: seq<Document>, embedder: Option<Answer>, call: nat)
    requires j < |Chunks(sections, MaxBatchSize)|
    requires BatchStep(Chunks(sections, MaxBatchSize)[j], j, embedder, call).documents == Ok(documents)
    ensures |documents| == |Chunks(sections, MaxBatchSize)[j]|
    ensures forall i :: 0 <= i < |documents| ==>
      && Position(i, j) < |sections|
      && SameButEmbedding(documents[i], NewDocument(sections[Position(i, j)], Position(i, j)))
  {
    BatchStepUpload(Chunks(sections, MaxBatchSize)[j], j, embedder, call);
    forall i | 0 <= i < |documents|
      ensures Position(i, j) < |sections|
      ensures SameButEmbedding(documents[i], NewDocument(sections[Position(i, j)], Position(i, j)))
    {
      UploadedSection(sections, j, i, documents, embedder, call);
    }
  }

  /** The upload of batch j holds, at index i, the document of input position i + j * 1000. */
  lemma UploadedSection(sections: seq<Section>, j: nat, i: nat, documents: seq<Document>, embedder: Option<Answer>, call: nat)
    requires j < |Chunks(sections, MaxBatchSize)| && i < |documents|
    requires BatchStep(Chunks(sections, MaxBatchSize)[j], j, embedder, call).documents == Ok(documents)
    ensures Position(i, j) < |sections|
    ensures SameButEmbedding(documents[i], NewDocument(sections[Position(i, j)], Position(i, j)))
  {
    var batch := Chunks(sections, MaxBatchSize)[j];
    BatchStepUpload(batch, j, embedder, call);
    BatchSection(sections, j, i);
    UploadedDocument(documents, batch, j, embedder, call, i);
  }

  /** Section i of batch j is the section at input position i + j * 1000. */
  lemma BatchSection(sections: seq<Section>, j: nat, i: nat)
    requires j < |Chunks(sections, MaxBatchSize)| && i < |Chunks(sections, MaxBatchSize)[j]|
    ensures Position(i, j) < |sections| && Chunks(sections, MaxBatchSize)[j][i] == sections[Position(i, j)]
  {
    ChunkElement(sections, MaxBatchSize, j, i);
  }

  /** Document i of the upload of batch number j is, but for its vector, the document of the section at position i + j * 1000. */
  lemma UploadedDocument(documents: seq<Document>, batch: seq<Section>, j: nat, embedder: Option<Answer>, call: nat, i: nat)
    requires IsUploadOf(documents, batch, j, embedder, call) && i < |batch|
    ensures i < |documents| && SameButEmbedding(documents[i], NewDocument(batch[i], Position(i, j)))
  {
  }

  /**
   * In a call that succeeds, every section of the input is uploaded: section
   * k is document k % 1000 of upload k / 1000.
   */
  lemma EverySectionUploaded(sections: seq<Section>, embedder: Option<Answer>, n: nat, accepts: Accepts, u: nat)
    ensures var o := Update(Chunks(sections, MaxBatchSize), 0, embedder, n, accepts, u, [], []);
      o.result.Ok? ==>
        forall k :: 0 <= k < |sections| ==>
          && k / MaxBatchSize < |o.uploads| && k % MaxBatchSize < |o.uploads[k / MaxBatchSize]|
          && Position(k % MaxBatchSize, k / MaxBatchSize) == k
  {
    var o := Update(Chunks(sections, MaxBatchSize), 0, embedder, n, accepts, u, [], []);
    UploadedSections(sections, embedder, n, accepts, u);
    if o.result.Ok? {
      forall k | 0 <= k < |sections|
        ensures k / MaxBatchSize < |o.uploads| && k % MaxBatchSize < |o.uploads[k / MaxBatchSize]|
        ensures Position(k % MaxBatchSize, k / MaxBatchSize) == k
      {
        ChunkOf(sections, MaxBatchSize, k);
      }
    }
  }

  /** Distinct places in the batches are distinct positions in the input. */
  lemma PositionInjective(i: nat, j: nat, i': nat, j': nat)
    requires i < MaxBatchSize && i' < MaxBatchSize
    requires Position(i, j) == Position(i', j')
    ensures i == i' && j == j'
  {
    DivUnique(Position(i, j), MaxBatchSize, j, i);
    DivUnique(Position(i', j'), MaxBatchSize, j', i');
  }

  /**
   * A document's id names its file and its position: two ids are equal
   * exactly when they are made from the same file name and the same position.
   */
  /** An id is its file's id prefix and "-page", then a '-' before the digits. */
  lemma DocumentIdParts(f: string, i: nat)
    ensures DocumentId(f, i) == (FilenameToId(f) + "-page") + ['-'] + NatToString(i)
  {
    assert FilenameToId(f) + "-page-" == (FilenameToId(f) + "-page") + ['-'];
  }

  lemma DocumentIdInjective(f: string, i: nat, g: string, j: nat)
    ensures DocumentId(f, i) == DocumentId(g, j) <==> f == g && i == j
  {
    if DocumentId(f, i) == DocumentId(g, j) {
      var a, c := FilenameToId(f) + "-page", FilenameToId(g) + "-page";
      var di, dj := NatToString(i), NatToString(j);
      DocumentIdParts(f, i);
      DocumentIdParts(g, j);
      assert forall k :: 0 <= k < |di| ==> di[k] != '-';
      assert forall k :: 0 <= k < |dj| ==> dj[k] != '-';
      SplitAtLastSeparator(a, di, c, dj, '-');
      NatToStringInjective(i, j);
      assert FilenameToId(f) == a[..|a| - 5] == c[..|c| - 5] == FilenameToId(g);
      FilenameToIdInjective(f, g);
    }
  }

  /** The documents a successful call uploads have pairwise distinct ids, whatever the files. */
  lemma UploadedIdsDistinct(sections: seq<Section>, embedder: Option<Answer>, n: nat, accepts: Accepts, u: nat, j: nat, i: nat, j': nat, i': nat)
    requires (j, i) != (j', i')
    ensures var o := Update(Chunks(sections, MaxBatchSize), 0, embedder, n, accepts, u, [], []);
      o.result.Ok? && j < |o.uploads| && i < |o.uploads[j]| && j' < |o.uploads| && i' < |o.uploads[j']| ==>
        o.uploads[j][i].id != o.uploads[j'][i'].id
  {
    var o := Update(Chunks(sections, MaxBatchSize), 0, embedder, n, accepts, u, [], []);
    UploadedSections(sections, embedder, n, accepts, u);
    if o.result.Ok? && j < |o.uploads| && i < |o.uploads[j]| && j' < |o.uploads| && i' < |o.uploads[j']| {
      var p, p' := Position(i, j), Position(i', j');
      if p == p' {
        PositionInjective(i, j, i', j');
      }
      DocumentIdInjective(sections[p].content.Filename(), p, sections[p'].content.Filename(), p');
    }
  }

  /**
   * Without an embeddings client, and with a search service that takes every
   * upload, the call cannot fail, makes no embeddings call, and uploads each
   * batch's documents exactly as the Select builds them.
   */
  lemma WithoutEmbeddings(sections: seq<Section>, n: nat, accepts: Accepts, u: nat)
    requires AlwaysAccepts(accepts)
    ensures var batches := Chunks(sections, MaxBatchSize);
      var o := Update(batches, 0, None, n, accepts, u, [], []);
      && o.result.Ok?
      && o.requests == []
      && |o.uploads| == |batches|
      && forall j :: 0 <= j < |batches| ==> o.uploads[j] == BatchDocuments(batches[j], j)
  {
    var batches := Chunks(sections, MaxBatchSize);
    var o := Update(batches, 0, None, n, accepts, u, [], []);
    UpdateUploadCount(batches, 0, None, n, accepts, u, [], []);
    UpdateUploads(batches, 0, None, n, accepts, u, [], []);
    UpdateRequests(batches, 0, None, n, accepts, u, [], []);
    forall j | 0 <= j < |batches|
      ensures BatchStep(batches[j], j, None, n + j).documents == Ok(BatchDocuments(batches[j], j))
    {
      UploadWithoutProvider(batches[j], j, n + j);
    }
    assert o.result.Ok?;
    forall j | 0 <= j < |batches|
      ensures o.uploads[j] == BatchDocuments(batches[j], j)
    {
      assert UploadedAs(batches, None, n, accepts, u, o.uploads, j);
    }
  }

  /** A search service that takes every upload. */
  ghost predicate AlwaysAccepts(accepts: Accepts)
  {
    forall k: nat, documents: seq<Document> :: accepts(k, documents)
  }

  /** A provider that answers every call, and none short. */
  ghost predicate AlwaysAnswers(answer: Answer)
  {
    forall call: nat, texts: seq<string> ::
      answer(call, texts).Ok? && |answer(call, texts).value| >= |texts|
  }

  /**
   * With a provider that always answers in full and a search service that
   * takes every upload, the call succeeds and makes one embeddings call per
   * batch, carrying the batch's texts.
   */
  lemma WithAnsweringProvider(sections: seq<Section>, answer: Answer, n: nat, accepts: Accepts, u: nat)
    requires AlwaysAnswers(answer) && AlwaysAccepts(accepts)
    ensures var batches := Chunks(sections, MaxBatchSize);
      var o := Update(batches, 0, Some(answer), n, accepts, u, [], []);
      && o.result.Ok?
      && |o.uploads| == |batches|
      && o.requests == seq(|batches|, j requires 0 <= j < |batches| => Texts(batches[j]))
  {
    var batches := Chunks(sections, MaxBatchSize);
    var o := Update(batches, 0, Some(answer), n, accepts, u, [], []);
    UpdateUploadCount(batches, 0, Some(answer), n, accepts, u, [], []);
    UpdateRequests(batches, 0, Some(answer), n, accepts, u, [], []);
    if o.result.Err? {
      assert false;
    }
  }

  /**
   * The source page of a PDF section's document is the bare file name with
   * the anchor "#page=" and the section's page number plus one.
   */
  lemma PdfSourcepageIsOnePageOn(section: Section, k: nat)
    requires IsPdf(section.content.Filename())
    ensures NewDocument(section, k).sourcepage
            == GetFileName(section.content.Filename()) + "#page=" + IntToString(section.splitPage.pageNum + 1)
  {
    DocumentSourcepage(section, k);
    SourcepageOfPdf(section.content.Filename(), section.splitPage.pageNum);
  }

  /**
   * The parser numbers pages from 1, so the document of a PDF's first page
   * points at "#page=2".
   */
  lemma FirstPageAnchor(section: Section, k: nat)
    requires IsPdf(section.content.Filename()) && section.splitPage.pageNum == 1
    ensures NewDocument(section, k).sourcepage == GetFileName(section.content.Filename()) + "#page=2"
  {
    DocumentSourcepage(section, k);
    SourcepageOfFirstPage(section.content.Filename());
  }

  /** A document's source page is computed from its section's file name and page number. */
  lemma DocumentSourcepage(section: Section, k: nat)
    ensures NewDocument(section, k).sourcepage == SourcepageFromFilePage(section.content.Filename(), section.splitPage.pageNum)
  {
  }
}
