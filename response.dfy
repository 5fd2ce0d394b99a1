/**
 * `handleResponse`: the response metadata starts with an empty body, the data
 * chunks are appended in arrival order, and at the end of the stream a 2xx
 * status resolves while any other status rejects with an error that carries
 * the whole metadata.
 */
module Response {
  import opened Headers

  datatype Metadata = Metadata(
    statusCode: int,
    statusMessage: string,
    headers: HeaderView,
    body: string)

  /** Why the response promise rejected. */
  datatype Failure =
    | HttpFailure(response: Metadata)  // a non-2xx status; the error's `response` property
    | Thrown(stack: string)            // any other error; only its stack is shown

  datatype Settled = Resolved(metadata: Metadata) | Rejected(failure: Failure)

  /** How the response stream finished. */
  datatype StreamEnd = Ended | Errored(stack: string)

  /** The in-order concatenation of the chunks, starting from the empty string. */
  function Concat(chunks: seq<string>): string
    decreases |chunks|
  {
    if chunks == [] then "" else Concat(chunks[..|chunks| - 1]) + chunks[|chunks| - 1]
  }

  /** Concatenation splits at any point: no chunk is lost, repeated or moved. */
  lemma {:induction false} ConcatAppend(a: seq<string>, b: seq<string>)
    ensures Concat(a + b) == Concat(a) + Concat(b)
    decreases |b|
  {
    if b != [] {
      var init := b[..|b| - 1];
      assert (a + b)[..|a + b| - 1] == a + init;
      ConcatAppend(a, init);
    } else {
      assert a + b == a;
    }
  }

  /** The body is the first chunk followed by the rest, in order. */
  lemma ConcatCons(chunks: seq<string>)
    requires chunks != []
    ensures Concat(chunks) == chunks[0] + Concat(chunks[1..])
  {
    ConcatAppend([chunks[0]], chunks[1..]);
    assert [chunks[0]] + chunks[1..] == chunks;
    assert Concat([chunks[0]]) == Concat([]) + chunks[0];
  }

  /** The length of the body is the total length of the chunks. */
  function TotalLength(chunks: seq<string>): nat
    decreases |chunks|
  {
    if chunks == [] then 0 else TotalLength(chunks[..|chunks| - 1]) + |chunks[|chunks| - 1]|
  }

  lemma {:induction false} ConcatLength(chunks: seq<string>)
    ensures |Concat(chunks)| == TotalLength(chunks)
    decreases |chunks|
  {
    if chunks != [] {
      ConcatLength(chunks[..|chunks| - 1]);
    }
  }

  /** The status check at the end of the stream. */
  function Classify(m: Metadata): (s: Settled)
    ensures s.Resolved? <==> 200 <= m.statusCode < 300
    ensures s.Resolved? ==> s.metadata == m
    ensures s.Rejected? ==> s.failure == HttpFailure(m)
  {
    if m.statusCode < 200 || m.statusCode >= 300 then Rejected(HttpFailure(m)) else Resolved(m)
  }

  /** The boundaries of the success range. */
  lemma StatusBoundaries(m: Metadata)
    ensures Classify(m.(statusCode := 199)).Rejected?
    ensures Classify(m.(statusCode := 200)).Resolved?
    ensures Classify(m.(statusCode := 299)).Resolved?
    ensures Classify(m.(statusCode := 300)).Rejected?
  {
  }

  /**
   * The response handler: appends each data chunk to the body, then settles
   * on the stream's end or rejects on its error.
   */
  method HandleResponse(statusCode: int, statusMessage: string, headers: HeaderView,
                        chunks: seq<string>, end: StreamEnd)
    returns (s: Settled)
    ensures end.Errored? ==> s == Rejected(Thrown(end.stack))
    ensures end.Ended? ==> s == Classify(Metadata(statusCode, statusMessage, headers, Concat(chunks)))
    ensures end.Ended? && s.Resolved? ==> s.metadata.body == Concat(chunks) && 200 <= statusCode < 300
  {
    var metadata := Metadata(statusCode, statusMessage, headers, "");
    var i := 0;
    while i < |chunks|
      invariant 0 <= i <= |chunks|
      invariant metadata == Metadata(statusCode, statusMessage, headers, Concat(chunks[..i]))
    {
      assert chunks[..i + 1][..i] == chunks[..i];
      metadata := metadata.(body := metadata.body + chunks[i]);
      i := i + 1;
    }
    assert chunks[..|chunks|] == chunks;
    if end.Errored? {
      return Rejected(Thrown(end.stack));
    }
    s := Classify(metadata);
  }
}
