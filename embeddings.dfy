/**
 * OpenAIEmbeddings.CreateEmbeddings: the texts are cut into batches of at
 * most 16, each batch is sent to the embeddings service in turn, a batch the
 * service rejects with a request failure is sent again up to 15 more times,
 * and the items of every successful reply are appended in batch order.
 *
 * The service is a client object whose answer to its n-th request is the
 * fixed function respond(n, batch): every behaviour over time (rate limits
 * that clear, outages) is some such function. The client logs each request.
 */
module Embeddings {
  import opened Wrappers
  import opened Text
  import opened Batching

  /** A vector component, kept as its 32-bit pattern; no arithmetic is done on it. */
  datatype Float = Float(bits: bv32)

  datatype EmbeddingItem = EmbeddingItem(index: int, embedding: seq<Float>)

  /** What one request gives: the embeddings, a RequestFailedException, or any other exception. */
  datatype Reply = Embedded(items: seq<EmbeddingItem>) | RequestFailed | OtherFailure

  /** How CreateEmbeddings ends when it throws. */
  datatype EmbeddingsError =
    | RetriesExhausted  // a batch failed with RequestFailedException on every allowed attempt
    | Failed            // a batch failed with an exception the retry policy does not handle

  const MaxBatchSize: nat := 16
  const RetryCount: nat := 15

  class OpenAIClient {
    /** The service's reply to its n-th request carrying the given texts. */
    const respond: (nat, seq<string>) -> Reply
    /** The texts of every request made so far, in order. */
    var requests: seq<seq<string>>

    constructor(respond: (nat, seq<string>) -> Reply)
      ensures this.respond == respond && requests == []
    {
      this.respond := respond;
      requests := [];
    }

    /** GetEmbeddingsAsync: one request. */
    method GetEmbeddings(batch: seq<string>) returns (reply: Reply)
      modifies this
      ensures reply == respond(|old(requests)|, batch)
      ensures requests == old(requests) + [batch]
    {
      reply := respond(|requests|, batch);
      requests := requests + [batch];
    }
  }

  // ---------------------------------------------------------------------
  // Specification
  // ---------------------------------------------------------------------

  /** How one batch fares: how many requests it took and what it yielded. */
  datatype Attempts = Attempts(count: nat, result: Result<seq<EmbeddingItem>, EmbeddingsError>)

  /**
   * One batch under the retry policy, starting at request number n with
   * `retries` retries left: a request failure is retried while retries are
   * left; a reply or any other failure ends the batch.
   */
  function Tried(respond: (nat, seq<string>) -> Reply, n: nat, batch: seq<string>, retries: nat): (a: Attempts)
    ensures 1 <= a.count <= retries + 1
    decreases retries
  {
    match respond(n, batch)
    case Embedded(items) => Attempts(1, Ok(items))
    case OtherFailure => Attempts(1, Err(Failed))
    case RequestFailed =>
      if retries == 0 then Attempts(1, Err(RetriesExhausted))
      else
        var rest := Tried(respond, n + 1, batch, retries - 1);
        Attempts(rest.count + 1, rest.result)
  }

  /**
   * The retry policy, request by request: every request but the last failed
   * with RequestFailed; the batch yields the items of the last reply if it
   * has any, fails with Failed if that reply is another exception, and fails
   * with RetriesExhausted exactly when all retries + 1 requests failed.
   */
  lemma {:induction false} TriedSpec(respond: (nat, seq<string>) -> Reply, n: nat, batch: seq<string>, retries: nat)
    ensures var a := Tried(respond, n, batch, retries);
      && (forall m :: n <= m < n + a.count - 1 ==> respond(m, batch).RequestFailed?)
      && (a.result.Ok? <==> respond(n + a.count - 1, batch).Embedded?)
      && (a.result.Ok? ==> a.result.value == respond(n + a.count - 1, batch).items)
      && (a.result == Err(Failed) <==> respond(n + a.count - 1, batch).OtherFailure?)
      && (a.result == Err(RetriesExhausted) <==> a.count == retries + 1 && respond(n + retries, batch).RequestFailed?)
    decreases retries
  {
    if respond(n, batch).RequestFailed? && retries > 0 {
      TriedSpec(respond, n + 1, batch, retries - 1);
    }
  }

  /** The requests and the outcome of a whole run over the batches. */
  datatype Run = Run(sent: seq<seq<string>>, result: Result<seq<EmbeddingItem>, EmbeddingsError>)

  function Repeat<T>(x: T, count: nat): (r: seq<T>)
    ensures |r| == count && forall i :: 0 <= i < count ==> r[i] == x
  {
    if count == 0 then [] else Repeat(x, count - 1) + [x]
  }

  /** The items gathered so far, in front of what the remaining batches add. */
  function Prefixed(sent: seq<seq<string>>, items: seq<EmbeddingItem>, run: Run): Run
  {
    Run(sent + run.sent, if run.result.Err? then run.result else Ok(items + run.result.value))
  }

  /**
   * The batches in order, starting at request number n: each batch is tried;
   * the first batch that fails ends the run with its error, otherwise the
   * items of all batches are concatenated.
   */
  function Embed(respond: (nat, seq<string>) -> Reply, n: nat, batches: seq<seq<string>>, retries: nat): Run
    decreases |batches|
  {
    if batches == [] then Run([], Ok([]))
    else
      var a := Tried(respond, n, batches[0], retries);
      var sent := Repeat(batches[0], a.count);
      if a.result.Err? then Run(sent, Err(a.result.error))
      else Prefixed(sent, a.result.value, Embed(respond, n + a.count, batches[1..], retries))
  }

  // ---------------------------------------------------------------------
  // The method
  // ---------------------------------------------------------------------

  class OpenAIEmbeddings {
    const client: OpenAIClient
    /** The retry policy's retryCount. */
    const retryCount: nat

    constructor(client: OpenAIClient)
      ensures this.client == client && retryCount == RetryCount
    {
      this.client := client;
      retryCount := RetryCount;
    }

    /**
     * CreateEmbeddings: the requests made are exactly those of the run over
     * the 16-text batches of the inputs, and so is the outcome.
     */
    method CreateEmbeddings(inputs: seq<string>) returns (r: Result<seq<EmbeddingItem>, EmbeddingsError>)
      modifies client
      ensures client.requests == old(client.requests) + Embed(client.respond, |old(client.requests)|, Chunks(inputs, MaxBatchSize), retryCount).sent
      ensures r == Embed(client.respond, |old(client.requests)|, Chunks(inputs, MaxBatchSize), retryCount).result
    {
      var inputsBatches := SplitIntoBatches(inputs, MaxBatchSize);
      r := EmbedBatches(inputsBatches);
    }

    /** The loop over the batches: each is sent with retries, and the first failure ends it. */
    method EmbedBatches(inputsBatches: seq<seq<string>>) returns (r: Result<seq<EmbeddingItem>, EmbeddingsError>)
      modifies client
      ensures client.requests == old(client.requests) + Embed(client.respond, |old(client.requests)|, inputsBatches, retryCount).sent
      ensures r == Embed(client.respond, |old(client.requests)|, inputsBatches, retryCount).result
    {
      ghost var respond := client.respond;
      ghost var n0 := |client.requests|;
      ghost var run := Embed(respond, n0, inputsBatches, retryCount);
      ghost var sent: seq<seq<string>> := [];
      var embeddingItems: seq<EmbeddingItem> := [];
      PrefixedEmpty(run);
      assert inputsBatches[0..] == inputsBatches;
      for b := 0 to |inputsBatches|
        invariant client.requests == old(client.requests) + sent
        invariant run == Prefixed(sent, embeddingItems, Embed(respond, n0 + |sent|, inputsBatches[b..], retryCount))
      {
        var batch := inputsBatches[b];
        ghost var a := Tried(respond, n0 + |sent|, batch, retryCount);
        ghost var sent' := sent + Repeat(batch, a.count);
        AppendAssoc(old(client.requests), sent, Repeat(batch, a.count));
        ghost var before := client.requests;
        assert |before| == n0 + |sent|;
        var result := SendWithRetry(batch);
        assert client.requests == before + Repeat(batch, a.count) && result == a.result;
        assert client.requests == old(client.requests) + sent';
        if result.Err? {
          BatchFails(respond, n0, inputsBatches, b, sent, embeddingItems, run, sent', retryCount);
          sent := sent';
          return result;
        }
        BatchSucceeds(respond, n0, inputsBatches, b, sent, embeddingItems, run, sent', result.value, retryCount);
        sent := sent';
        embeddingItems := embeddingItems + result.value;
      }
      RunEnds(respond, n0 + |sent|, inputsBatches, sent, embeddingItems, retryCount);
      r := Ok(embeddingItems);
    }

    /**
     * The retry policy around one request: the first attempt, then up to
     * RetryCount retries while the service answers RequestFailed.
     */
    method SendWithRetry(batch: seq<string>) returns (r: Result<seq<EmbeddingItem>, EmbeddingsError>)
      modifies client
      ensures var a := Tried(client.respond, |old(client.requests)|, batch, retryCount);
        client.requests == old(client.requests) + Repeat(batch, a.count) && r == a.result
    {
      ghost var respond := client.respond;
      ghost var start := |client.requests|;
      var retries := 0;
      var reply := client.GetEmbeddings(batch);
      while reply.RequestFailed? && retries < retryCount
        invariant 0 <= retries <= retryCount
        invariant client.requests == old(client.requests) + Repeat(batch, retries + 1)
        invariant reply == respond(start + retries, batch)
        invariant forall m :: start <= m < start + retries ==> respond(m, batch).RequestFailed?
        decreases retryCount - retries
      {
        RepeatSnoc(batch, retries + 1);
        retries := retries + 1;
        reply := client.GetEmbeddings(batch);
      }
      TriedFromReplies(respond, start, batch, retries, retryCount);
      match reply
      case Embedded(items) => r := Ok(items);
      case RequestFailed => r := Err(RetriesExhausted);
      case OtherFailure => r := Err(Failed);
    }
  }

  /**
   * The requests of the retry policy, read back: `retries` request failures
   * followed by a last reply that is not one, or by one more failure when no
   * retry is left.
   */
  lemma {:induction false} TriedFromReplies(respond: (nat, seq<string>) -> Reply, start: nat, batch: seq<string>, retries: nat, budget: nat)
    requires retries <= budget
    requires forall m :: start <= m < start + retries ==> respond(m, batch).RequestFailed?
    requires !respond(start + retries, batch).RequestFailed? || retries == budget
    ensures Tried(respond, start, batch, budget)
            == match respond(start + retries, batch)
               case Embedded(items) => Attempts(retries + 1, Ok(items))
               case OtherFailure => Attempts(retries + 1, Err(Failed))
               case RequestFailed => Attempts(retries + 1, Err(RetriesExhausted))
    decreases retries
  {
    if retries > 0 {
      assert respond(start, batch).RequestFailed?;
      TriedFromReplies(respond, start + 1, batch, retries - 1, budget - 1);
    }
  }

  lemma RepeatSnoc<T>(x: T, count: nat)
    ensures Repeat(x, count + 1) == Repeat(x, count) + [x]
  {
  }

  /** A run with nothing in front of it is itself. */
  lemma PrefixedEmpty(run: Run)
    ensures Prefixed([], [], run) == run
  {
    assert [] + run.sent == run.sent;
    if run.result.Ok? {
      assert [] + run.result.value == run.result.value;
    }
  }

  /** A batch that fails ends the run with its error, after its requests. */
  lemma BatchFails(respond: (nat, seq<string>) -> Reply, n0: nat, batches: seq<seq<string>>, b: nat,
                   sent: seq<seq<string>>, items: seq<EmbeddingItem>, run: Run, sent': seq<seq<string>>, retries: nat)
    requires b < |batches|
    requires run == Prefixed(sent, items, Embed(respond, n0 + |sent|, batches[b..], retries))
    requires var a := Tried(respond, n0 + |sent|, batches[b], retries);
      a.result.Err? && sent' == sent + Repeat(batches[b], a.count)
    ensures run == Run(sent', Tried(respond, n0 + |sent|, batches[b], retries).result)
  {
    assert batches[b..][0] == batches[b];
  }

  /** A batch that succeeds adds its requests and its items in front of the rest of the run. */
  lemma BatchSucceeds(respond: (nat, seq<string>) -> Reply, n0: nat, batches: seq<seq<string>>, b: nat,
                      sent: seq<seq<string>>, items: seq<EmbeddingItem>, run: Run, sent': seq<seq<string>>,
                      batchItems: seq<EmbeddingItem>, retries: nat)
    requires b < |batches|
    requires run == Prefixed(sent, items, Embed(respond, n0 + |sent|, batches[b..], retries))
    requires var a := Tried(respond, n0 + |sent|, batches[b], retries);
      a.result == Ok(batchItems) && sent' == sent + Repeat(batches[b], a.count)
    ensures run == Prefixed(sent', items + batchItems, Embed(respond, n0 + |sent'|, batches[b + 1..], retries))
  {
    assert batches[b..][0] == batches[b];
    assert batches[b..][1..] == batches[b + 1..];
    var a := Tried(respond, n0 + |sent|, batches[b], retries);
    PrefixedAssoc(sent, Repeat(batches[b], a.count), items, batchItems,
                  Embed(respond, n0 + |sent'|, batches[b + 1..], retries));
  }

  /** Once no batch is left, the run is what has been gathered. */
  lemma RunEnds(respond: (nat, seq<string>) -> Reply, n: nat, batches: seq<seq<string>>,
                sent: seq<seq<string>>, items: seq<EmbeddingItem>, retries: nat)
    ensures Prefixed(sent, items, Embed(respond, n, batches[|batches|..], retries)) == Run(sent, Ok(items))
  {
    assert batches[|batches|..] == [];
    assert sent + [] == sent;
    assert items + [] == items;
  }

  lemma PrefixedAssoc(s1: seq<seq<string>>, s2: seq<seq<string>>, i1: seq<EmbeddingItem>, i2: seq<EmbeddingItem>, run: Run)
    ensures Prefixed(s1, i1, Prefixed(s2, i2, run)) == Prefixed(s1 + s2, i1 + i2, run)
  {
    assert s1 + (s2 + run.sent) == (s1 + s2) + run.sent;
    if run.result.Ok? {
      assert i1 + (i2 + run.result.value) == (i1 + i2) + run.result.value;
    }
  }
  // ---------------------------------------------------------------------
  // Properties of a run
  // ---------------------------------------------------------------------

  /** A run over non-empty batches: the first batch's attempts, then the rest unless it failed. */
  lemma EmbedStep(respond: (nat, seq<string>) -> Reply, n: nat, batches: seq<seq<string>>, retries: nat)
    requires batches != []
    ensures var a := Tried(respond, n, batches[0], retries);
      var first := Repeat(batches[0], a.count);
      Embed(respond, n, batches, retries)
      == if a.result.Err? then Run(first, a.result)
         else Run(first + Embed(respond, n + a.count, batches[1..], retries).sent,
                  var rest := Embed(respond, n + a.count, batches[1..], retries).result;
                  if rest.Err? then rest else Ok(a.result.value + rest.value))
  {
  }

  /** Every request carries one of the batches. */
  lemma {:induction false} EmbedSendsBatches(respond: (nat, seq<string>) -> Reply, n: nat, batches: seq<seq<string>>, retries: nat)
    ensures forall k :: 0 <= k < |Embed(respond, n, batches, retries).sent| ==> Embed(respond, n, batches, retries).sent[k] in batches
    decreases |batches|
  {
    if batches != [] {
      var a := Tried(respond, n, batches[0], retries);
      var first := Repeat(batches[0], a.count);
      var rest := Embed(respond, n + a.count, batches[1..], retries);
      EmbedStep(respond, n, batches, retries);
      EmbedSendsBatches(respond, n + a.count, batches[1..], retries);
      var sent := Embed(respond, n, batches, retries).sent;
      assert sent == first || sent == first + rest.sent;
      forall k | 0 <= k < |sent| ensures sent[k] in batches {
        if k >= |first| {
          assert sent[k] == rest.sent[k - |first|];
          assert sent[k] in batches[1..];
        } else {
          assert sent[k] == batches[0];
        }
      }
    }
  }

  /** A run makes at most retries + 1 requests per batch. */
  lemma {:induction false} EmbedRequestsAtMost(respond: (nat, seq<string>) -> Reply, n: nat, batches: seq<seq<string>>, retries: nat)
    ensures |Embed(respond, n, batches, retries).sent| <= (retries + 1) * |batches|
    decreases |batches|
  {
    if batches != [] {
      var a := Tried(respond, n, batches[0], retries);
      var rest := Embed(respond, n + a.count, batches[1..], retries);
      EmbedRequestsAtMost(respond, n + a.count, batches[1..], retries);
      assert |Embed(respond, n, batches, retries).sent| <= a.count + |rest.sent|;
      BoundStep(a.count, |rest.sent|, retries + 1, |batches|, |batches[1..]|);
    }
  }

  lemma BoundStep(x: nat, y: nat, c: nat, k: nat, k': nat)
    requires k == k' + 1 && x <= c && y <= c * k'
    ensures x + y <= c * k
  {
    MulNext(k', c);
  }

  /** A run that succeeds makes at least one request per batch. */
  lemma {:induction false} EmbedRequestsAtLeast(respond: (nat, seq<string>) -> Reply, n: nat, batches: seq<seq<string>>, retries: nat)
    ensures Embed(respond, n, batches, retries).result.Ok? ==> |batches| <= |Embed(respond, n, batches, retries).sent|
    decreases |batches|
  {
    if batches != [] {
      var a := Tried(respond, n, batches[0], retries);
      EmbedRequestsAtLeast(respond, n + a.count, batches[1..], retries);
    }
  }

  /**
   * The requests of the inputs' run carry from 1 to 16 texts each, and no
   * input at all makes no request and gives no items.
   */
  lemma RequestsOfInputs(respond: (nat, seq<string>) -> Reply, n: nat, inputs: seq<string>, retries: nat)
    ensures var run := Embed(respond, n, Chunks(inputs, MaxBatchSize), retries);
      && (forall k :: 0 <= k < |run.sent| ==> 0 < |run.sent[k]| <= MaxBatchSize)
      && (inputs == [] ==> run == Run([], Ok([])))
  {
    var batches := Chunks(inputs, MaxBatchSize);
    EmbedSendsBatches(respond, n, batches, retries);
    ChunkCount(inputs, MaxBatchSize);
  }

  /** A run whose first batch fails ends with that batch's last request, which got no reply. */
  lemma FirstBatchFails(respond: (nat, seq<string>) -> Reply, n: nat, batches: seq<seq<string>>, retries: nat)
    requires batches != [] && Tried(respond, n, batches[0], retries).result.Err?
    ensures var run := Embed(respond, n, batches, retries);
      |run.sent| > 0 && !respond(n + |run.sent| - 1, run.sent[|run.sent| - 1]).Embedded?
  {
    var a := Tried(respond, n, batches[0], retries);
    var first := Repeat(batches[0], a.count);
    TriedSpec(respond, n, batches[0], retries);
    assert Embed(respond, n, batches, retries) == Run(first, a.result);
    assert first[a.count - 1] == batches[0];
  }

  /**
   * A run that fails ends with a request that brought no embeddings: no
   * request is made after the one that failed (EmbedStopsAtFailedBatch says
   * which batch that is).
   */
  lemma {:induction false} EmbedFailureIsLast(respond: (nat, seq<string>) -> Reply, n: nat, batches: seq<seq<string>>, retries: nat)
    ensures var run := Embed(respond, n, batches, retries);
      run.result.Err? ==>
        |run.sent| > 0 && !respond(n + |run.sent| - 1, run.sent[|run.sent| - 1]).Embedded?
    decreases |batches|
  {
    if batches != [] {
      var a := Tried(respond, n, batches[0], retries);
      if a.result.Err? {
        FirstBatchFails(respond, n, batches, retries);
      } else {
        var c, v := a.count, a.result.value;
        var rest := Embed(respond, n + c, batches[1..], retries);
        EmbedFailureIsLast(respond, n + c, batches[1..], retries);
        EmbedFirstOk(respond, n, batches, retries, c, v);
        LastOfPrefixed(Repeat(batches[0], c), v, rest);
      }
    }
  }

  /** Requests and items in front of a run keep its outcome, and its last request if it has one. */
  lemma LastOfPrefixed(sent: seq<seq<string>>, items: seq<EmbeddingItem>, run: Run)
    ensures var r := Prefixed(sent, items, run);
      && |r.sent| == |sent| + |run.sent| && r.result.Err? == run.result.Err?
      && (|run.sent| > 0 ==> r.sent[|r.sent| - 1] == run.sent[|run.sent| - 1])
  {
  }

  /** What the batches after a run add to it: nothing if it failed, otherwise their run from the next request. */
  function Then(x: Run, respond: (nat, seq<string>) -> Reply, n: nat, b2: seq<seq<string>>, retries: nat): Run
  {
    if x.result.Err? then x else Prefixed(x.sent, x.result.value, Embed(respond, n + |x.sent|, b2, retries))
  }

  /**
   * A run over two lists of batches is the run over the first, then, unless
   * that failed, the run over the second from the next request number, its
   * requests and items appended after the first's.
   */
  lemma {:induction false} EmbedAppend(respond: (nat, seq<string>) -> Reply, n: nat, b1: seq<seq<string>>, b2: seq<seq<string>>, retries: nat)
    ensures Embed(respond, n, b1 + b2, retries) == Then(Embed(respond, n, b1, retries), respond, n, b2, retries)
    decreases |b1|
  {
    if b1 == [] {
      assert b1 + b2 == b2;
      assert Embed(respond, n, b1, retries) == Run([], Ok([]));
      PrefixedEmpty(Embed(respond, n, b2, retries));
    } else {
      var a := Tried(respond, n, b1[0], retries);
      if a.result.Ok? {
        EmbedAppend(respond, n + a.count, b1[1..], b2, retries);
      }
      EmbedAppendStep(respond, n, b1, b2, retries);
    }
  }

  /** The step of EmbedAppend: the first batch of b1, then the claim for the rest of b1. */
  lemma EmbedAppendStep(respond: (nat, seq<string>) -> Reply, n: nat, b1: seq<seq<string>>, b2: seq<seq<string>>, retries: nat)
    requires b1 != []
    requires var a := Tried(respond, n, b1[0], retries);
      a.result.Ok? ==>
        Embed(respond, n + a.count, b1[1..] + b2, retries)
        == Then(Embed(respond, n + a.count, b1[1..], retries), respond, n + a.count, b2, retries)
    ensures Embed(respond, n, b1 + b2, retries) == Then(Embed(respond, n, b1, retries), respond, n, b2, retries)
  {
    var a := Tried(respond, n, b1[0], retries);
    assert (b1 + b2)[0] == b1[0];
    assert (b1 + b2)[1..] == b1[1..] + b2;
    if a.result.Ok? {
      var c, v := a.count, a.result.value;
      var sent := Repeat(b1[0], c);
      EmbedFirstOk(respond, n, b1, retries, c, v);
      EmbedFirstOk(respond, n, b1 + b2, retries, c, v);
      ThenAfterPrefix(Embed(respond, n, b1 + b2, retries), Embed(respond, n, b1, retries),
                      Embed(respond, n + c, b1[1..], retries), Embed(respond, n + c, b1[1..] + b2, retries),
                      sent, v, respond, n, b2, retries);
    }
  }

  /** When the first batch brings items after c requests, the run is those requests and items in front of the run of the rest from request n + c. */
  lemma EmbedFirstOk(respond: (nat, seq<string>) -> Reply, n: nat, batches: seq<seq<string>>, retries: nat, c: nat, v: seq<EmbeddingItem>)
    requires batches != [] && Tried(respond, n, batches[0], retries) == Attempts(c, Ok(v))
    ensures |Repeat(batches[0], c)| == c
    ensures Embed(respond, n, batches, retries) == Prefixed(Repeat(batches[0], c), v, Embed(respond, n + c, batches[1..], retries))
  {
  }

  /** A run made of requests and items in front of the run of the rest of b1 followed by b2 is run x over b1 followed by b2. */
  lemma ThenAfterPrefix(whole: Run, x: Run, y: Run, w: Run, sent: seq<seq<string>>, items: seq<EmbeddingItem>,
                        respond: (nat, seq<string>) -> Reply, n: nat, b2: seq<seq<string>>, retries: nat)
    requires whole == Prefixed(sent, items, w) && x == Prefixed(sent, items, y)
    requires w == Then(y, respond, n + |sent|, b2, retries)
    ensures whole == Then(x, respond, n, b2, retries)
  {
    ThenPrefixed(sent, items, y, respond, n, b2, retries);
  }

  /** Appending batches after a run with requests and items in front is appending them after the run. */
  lemma ThenPrefixed(sent: seq<seq<string>>, items: seq<EmbeddingItem>, y: Run, respond: (nat, seq<string>) -> Reply, n: nat,
                     b2: seq<seq<string>>, retries: nat)
    ensures Then(Prefixed(sent, items, y), respond, n, b2, retries) == Prefixed(sent, items, Then(y, respond, n + |sent|, b2, retries))
  {
    var x := Prefixed(sent, items, y);
    if y.result.Ok? {
      var rest := Embed(respond, n + |sent| + |y.sent|, b2, retries);
      assert n + |x.sent| == n + |sent| + |y.sent|;
      assert Then(x, respond, n, b2, retries) == Prefixed(sent + y.sent, items + y.result.value, rest);
      PrefixedAssoc(sent, y.sent, items, y.result.value, rest);
    }
  }

  /**
   * The batch loop stops at the first batch that fails: when batch k fails
   * after the batches before it succeeded, the run over all batches is the
   * run over the batches up to k, so nothing of a later batch is sent.
   */
  lemma EmbedStopsAtFailedBatch(respond: (nat, seq<string>) -> Reply, n: nat, batches: seq<seq<string>>, k: nat, retries: nat)
    requires k < |batches|
    requires Embed(respond, n, batches[..k], retries).result.Ok?
    requires Embed(respond, n, batches[..k + 1], retries).result.Err?
    ensures Embed(respond, n, batches, retries) == Embed(respond, n, batches[..k + 1], retries)
    ensures var run := Embed(respond, n, batches, retries);
      |run.sent| > 0 && run.sent[|run.sent| - 1] == batches[k]
  {
    var upTo := Embed(respond, n, batches[..k + 1], retries);
    assert batches[..k + 1] + batches[k + 1..] == batches;
    EmbedAppend(respond, n, batches[..k + 1], batches[k + 1..], retries);
    assert Then(upTo, respond, n, batches[k + 1..], retries) == upTo;
    FailedBatchSentLast(respond, n, batches, k, retries);
  }

  /** The run up to a failing batch k ends with a request carrying batch k. */
  lemma FailedBatchSentLast(respond: (nat, seq<string>) -> Reply, n: nat, batches: seq<seq<string>>, k: nat, retries: nat)
    requires k < |batches|
    requires Embed(respond, n, batches[..k], retries).result.Ok?
    requires Embed(respond, n, batches[..k + 1], retries).result.Err?
    ensures var run := Embed(respond, n, batches[..k + 1], retries);
      |run.sent| > 0 && run.sent[|run.sent| - 1] == batches[k]
  {
    var x := Embed(respond, n, batches[..k], retries);
    var last := Embed(respond, n + |x.sent|, [batches[k]], retries);
    assert batches[..k] + [batches[k]] == batches[..k + 1];
    EmbedAppend(respond, n, batches[..k], [batches[k]], retries);
    assert Then(x, respond, n, [batches[k]], retries) == Prefixed(x.sent, x.result.value, last);
    assert last.result.Err?;
    OneBatchFails(respond, n + |x.sent|, batches[k], retries);
  }

  /** A run over one batch that fails sent that batch, and only that batch. */
  lemma OneBatchFails(respond: (nat, seq<string>) -> Reply, m: nat, batch: seq<string>, retries: nat)
    requires Embed(respond, m, [batch], retries).result.Err?
    ensures var run := Embed(respond, m, [batch], retries);
      |run.sent| > 0 && forall i :: 0 <= i < |run.sent| ==> run.sent[i] == batch
  {
    var a := Tried(respond, m, batch, retries);
    assert [batch][0] == batch && [batch][1..] == [];
    assert Embed(respond, m + a.count, [], retries) == Run([], Ok([]));
    assert a.result.Err?;
    assert Embed(respond, m, [batch], retries) == Run(Repeat(batch, a.count), Err(a.result.error));
  }

  /** The items of the one reply to each batch, when every request is answered. */
  function Answers(respond: (nat, seq<string>) -> Reply, n: nat, batches: seq<seq<string>>): seq<seq<EmbeddingItem>>
    decreases |batches|
  {
    if batches == [] then []
    else
      var items := match respond(n, batches[0]) case Embedded(items) => items case _ => [];
      [items] + Answers(respond, n + 1, batches[1..])
  }

  /**
   * When the service answers every request, each batch is sent once, in
   * order, and the result is the answers concatenated in batch order.
   */
  lemma {:induction false} EmbedWhenEveryRequestAnswered(respond: (nat, seq<string>) -> Reply, n: nat, batches: seq<seq<string>>, retries: nat)
    requires forall m, b :: respond(m, b).Embedded?
    ensures Embed(respond, n, batches, retries) == Run(batches, Ok(Flatten(Answers(respond, n, batches))))
    decreases |batches|
  {
    if batches != [] {
      var items := respond(n, batches[0]).items;
      assert Tried(respond, n, batches[0], retries) == Attempts(1, Ok(items));
      assert Repeat(batches[0], 1) == [batches[0]];
      EmbedWhenEveryRequestAnswered(respond, n + 1, batches[1..], retries);
      var answers := Answers(respond, n, batches);
      assert answers == [items] + Answers(respond, n + 1, batches[1..]);
      assert answers[1..] == Answers(respond, n + 1, batches[1..]);
      assert [batches[0]] + batches[1..] == batches;
    }
  }

  lemma {:induction false} AnswersLength(respond: (nat, seq<string>) -> Reply, n: nat, batches: seq<seq<string>>)
    requires forall m, b :: respond(m, b).Embedded? && |respond(m, b).items| == |b|
    ensures |Flatten(Answers(respond, n, batches))| == |Flatten(batches)|
    decreases |batches|
  {
    if batches != [] {
      AnswersLength(respond, n + 1, batches[1..]);
      var answers := Answers(respond, n, batches);
      assert answers[1..] == Answers(respond, n + 1, batches[1..]);
    }
  }

  /** With one item per text in every reply, the inputs get exactly as many items. */
  lemma OneItemPerText(respond: (nat, seq<string>) -> Reply, n: nat, inputs: seq<string>, retries: nat)
    requires forall m, b :: respond(m, b).Embedded? && |respond(m, b).items| == |b|
    ensures var run := Embed(respond, n, Chunks(inputs, MaxBatchSize), retries);
      run.result.Ok? && |run.result.value| == |inputs|
  {
    var batches := Chunks(inputs, MaxBatchSize);
    EmbedWhenEveryRequestAnswered(respond, n, batches, retries);
    AnswersLength(respond, n, batches);
    ChunksFlatten(inputs, MaxBatchSize);
  }
}
