/**
 * The collection loop of `analyze_contract`: the contract text is chunked with
 * the default cap of 4000, the completion endpoint is called once per chunk in
 * chunk order, only truthy replies are kept, and the kept replies are merged.
 *
 * The HTTP call is a parameter `complete`: `complete(i, prompt)` is what the
 * i-th call, made with the user prompt `prompt`, returns, `None` standing for
 * an HTTP or transport error (or a `null` reply).
 */
module Analyzer {
  import opened Wrappers
  import opened Chunker
  import opened Merger

  /** The default `max_tokens` of the chunker, which `analyze_contract` relies on. */
  const DefaultMaxTokens: int := 4000

  /** The fixed text before the chunk in the user prompt: the instruction line and the indentation. */
  const PromptHead: string := "Analyze the following contract text and provide a detailed report in JSON format:\n        "

  /** The fixed text after the chunk in the user prompt: a newline and the indentation. */
  const PromptTail: string := "\n        "

  /** The user prompt sent with one chunk: the chunk verbatim, between a fixed head and tail. */
  function UserPrompt(chunk: string): (r: string)
    ensures |r| == |PromptHead| + |chunk| + |PromptTail|
    ensures r[..|PromptHead|] == PromptHead
    ensures r[|PromptHead|..|PromptHead| + |chunk|] == chunk
    ensures r[|PromptHead| + |chunk|..] == PromptTail
  {
    PromptHead + chunk + PromptTail
  }

  /** Python truthiness of a completion result: present and not the empty string. */
  predicate Truthy(reply: Option<string>) {
    reply.Some? && reply.value != ""
  }

  /** The replies the loop keeps, in call order. */
  function Kept(replies: seq<Option<string>>): seq<string>
    decreases |replies|
  {
    if replies == [] then []
    else
      var n := |replies| - 1;
      if Truthy(replies[n]) then Kept(replies[..n]) + [replies[n].value] else Kept(replies[..n])
  }

  /** A reply is kept exactly when some call returned it and it is not the empty string. */
  lemma {:induction false} KeptMembers(replies: seq<Option<string>>)
    ensures |Kept(replies)| <= |replies|
    ensures forall s :: s in Kept(replies) <==> s != "" && Some(s) in replies
    decreases |replies|
  {
    if replies != [] {
      var n := |replies| - 1;
      KeptMembers(replies[..n]);
      assert replies == replies[..n] + [replies[n]];
    }
  }

  /** The results of the completion calls, one per chunk, in chunk order. */
  function Replies(complete: (nat, string) -> Option<string>, chunks: seq<string>): seq<Option<string>> {
    seq(|chunks|, i requires 0 <= i < |chunks| => complete(i, UserPrompt(chunks[i])))
  }

  /** The loop of `analyze_contract` that calls the endpoint per chunk and keeps the truthy replies. */
  method CollectReplies(chunks: seq<string>, complete: (nat, string) -> Option<string>)
    returns (analysisResults: seq<string>)
    ensures analysisResults == Kept(Replies(complete, chunks))
  {
    analysisResults := [];
    ghost var replies := Replies(complete, chunks);
    for i := 0 to |chunks|
      invariant analysisResults == Kept(replies[..i])
    {
      assert replies[..i + 1][..i] == replies[..i];
      var analysisResult := complete(i, UserPrompt(chunks[i]));
      assert analysisResult == replies[i];
      if analysisResult.Some? && analysisResult.value != "" {
        analysisResults := analysisResults + [analysisResult.value];
      }
    }
    assert replies[..|chunks|] == replies;
  }

  /** `analyze_contract(api_key, contract_text)` with the completion calls given by `complete`. */
  method AnalyzeContract<C>(text: string, parse: string -> Option<Reply<C>>,
                            complete: (nat, string) -> Option<string>)
    returns (report: Report<C>)
    ensures report
         == Merge(parse, Kept(Replies(complete, JoinAll(Chunks(SplitWords(text), DefaultMaxTokens)))))
    ensures SplitWords(text) == [] ==> report == DefaultReport()
  {
    var chunks := SplitTextIntoChunks(text, DefaultMaxTokens);
    var analysisResults := CollectReplies(chunks, complete);
    report := MergeJsonResponses(parse, analysisResults);
    if SplitWords(text) == [] {
      assert chunks == [] && Replies(complete, chunks) == [];
    }
  }

  // ---------------------------------------------------------------------------
  // Failed calls
  // ---------------------------------------------------------------------------

  /** Keeping is a filter: it distributes over concatenation. */
  lemma {:induction false} KeptConcat(xs: seq<Option<string>>, ys: seq<Option<string>>)
    ensures Kept(xs + ys) == Kept(xs) + Kept(ys)
    decreases |ys|
  {
    if ys == [] {
      assert xs + ys == xs;
    } else {
      var n := |ys| - 1;
      KeptConcat(xs, ys[..n]);
      assert (xs + ys)[..|xs| + n] == xs + ys[..n];
      assert (xs + ys)[|xs| + n] == ys[n];
    }
  }

  /** A failed or empty completion is dropped and leaves the other replies, in order. */
  lemma KeptDropsFailed(before: seq<Option<string>>, failed: Option<string>, after: seq<Option<string>>)
    requires !Truthy(failed)
    ensures Kept(before + [failed] + after) == Kept(before + after)
  {
    KeptConcat(before + [failed], after);
    KeptConcat(before, [failed]);
    KeptConcat(before, after);
    assert [failed][..0] == [];
  }

  /** A chunk whose completion call fails contributes nothing to the report. */
  lemma FailedChunkContributesNothing<C>(parse: string -> Option<Reply<C>>, before: seq<Option<string>>,
                                         failed: Option<string>, after: seq<Option<string>>)
    requires !Truthy(failed)
    ensures Merge(parse, Kept(before + [failed] + after)) == Merge(parse, Kept(before + after))
  {
    KeptDropsFailed(before, failed, after);
  }

  /**
   * When every completion call fails with an HTTP or transport error (or
   * returns an empty reply), the merged report is the default report.
   */
  lemma {:induction false} AllCallsFailed<C>(parse: string -> Option<Reply<C>>, replies: seq<Option<string>>)
    requires forall i :: 0 <= i < |replies| ==> !Truthy(replies[i])
    ensures Merge(parse, Kept(replies)) == DefaultReport()
    decreases |replies|
  {
    if replies != [] {
      AllCallsFailed(parse, replies[..|replies| - 1]);
    }
  }
}
