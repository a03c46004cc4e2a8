/**
 * `summarize_meeting` of test.py: the transcript is chunked with the default
 * budget, the summarisation model is asked once per chunk, in order, and the
 * answers are joined with a single space. The first failed request aborts the
 * whole summary (the exception is re-raised; nothing partial is returned).
 */
module Summarizer {
  import opened Wrappers
  import opened Text
  import opened Chunker

  /** `split_into_chunks`'s default budget. */
  const MaxTokens := 3000

  /** The model: a request text is answered with a text or an error message. */
  type Model = string -> Result<string, string>

  /** The request sent for one chunk. */
  function Prompt(chunk: string): string
  {
    PromptHeader + chunk
  }

  const PromptHeader := "Summarize this part of the meeting:\n\n"

  /** The request for chunk `j` is the first that fails. */
  ghost predicate FirstFailure(chunks: seq<string>, model: Model, j: int)
  {
    && 0 <= j < |chunks|
    && model(Prompt(chunks[j])).Failure?
    && forall i :: 0 <= i < j ==> model(Prompt(chunks[i])).Success?
  }

  /** The answers to the chunks, in chunk order, or the first error. */
  function Replies(chunks: seq<string>, model: Model): Result<seq<string>, string>
    decreases |chunks|
  {
    if chunks == [] then Success([])
    else
      match Replies(chunks[..|chunks| - 1], model)
      case Failure(e) => Failure(e)
      case Success(done) =>
        match model(Prompt(chunks[|chunks| - 1]))
        case Failure(e) => Failure(e)
        case Success(text) => Success(done + [text])
  }

  /** All chunks are answered exactly when every call succeeds; the answers are the calls' texts, in chunk order; a failure is the first failing call's error. */
  lemma RepliesMeaning(chunks: seq<string>, model: Model)
    ensures Replies(chunks, model).Success? <==> forall i :: 0 <= i < |chunks| ==> model(Prompt(chunks[i])).Success?
    ensures Replies(chunks, model).Success? ==>
      && |Replies(chunks, model).value| == |chunks|
      && forall i :: 0 <= i < |chunks| ==>
        model(Prompt(chunks[i])).Success? && Replies(chunks, model).value[i] == model(Prompt(chunks[i])).value
    ensures Replies(chunks, model).Failure? ==>
      exists j :: FirstFailure(chunks, model, j) && model(Prompt(chunks[j])) == Failure(Replies(chunks, model).error)
  {
    RepliesSucceed(chunks, model);
    RepliesValues(chunks, model);
    RepliesFirstFailure(chunks, model);
  }

  lemma {:induction false} RepliesSucceed(chunks: seq<string>, model: Model)
    ensures Replies(chunks, model).Success? <==> forall i :: 0 <= i < |chunks| ==> model(Prompt(chunks[i])).Success?
    decreases |chunks|
  {
    if chunks != [] {
      var last := |chunks| - 1;
      RepliesSucceed(chunks[..last], model);
      assert forall i :: 0 <= i < last ==> chunks[..last][i] == chunks[i];
    }
  }

  lemma {:induction false} RepliesValues(chunks: seq<string>, model: Model)
    ensures Replies(chunks, model).Success? ==>
      && |Replies(chunks, model).value| == |chunks|
      && forall i :: 0 <= i < |chunks| ==>
        model(Prompt(chunks[i])).Success? && Replies(chunks, model).value[i] == model(Prompt(chunks[i])).value
    decreases |chunks|
  {
    if chunks != [] && Replies(chunks, model).Success? {
      var last := |chunks| - 1;
      var init := chunks[..last];
      RepliesValues(init, model);
      var done := Replies(init, model).value;
      var text := model(Prompt(chunks[last])).value;
      assert Replies(chunks, model).value == done + [text];
      assert forall i :: 0 <= i < last ==> init[i] == chunks[i] && (done + [text])[i] == done[i];
    }
  }

  lemma {:induction false} RepliesFirstFailure(chunks: seq<string>, model: Model)
    ensures Replies(chunks, model).Failure? ==>
      exists j :: FirstFailure(chunks, model, j) && model(Prompt(chunks[j])) == Failure(Replies(chunks, model).error)
    decreases |chunks|
  {
    if chunks != [] && Replies(chunks, model).Failure? {
      var last := |chunks| - 1;
      var init := chunks[..last];
      RepliesSucceed(init, model);
      RepliesFirstFailure(init, model);
      assert forall i :: 0 <= i < last ==> init[i] == chunks[i];
      if Replies(init, model).Failure? {
        var j :| FirstFailure(init, model, j) && model(Prompt(init[j])) == Failure(Replies(init, model).error);
        assert FirstFailure(chunks, model, j);
      } else {
        assert FirstFailure(chunks, model, last);
      }
    }
  }

  /** A failure among the first chunks is the failure of all of them. */
  lemma {:induction false} RepliesFailureSticks(chunks: seq<string>, k: nat, model: Model)
    requires k <= |chunks| && Replies(chunks[..k], model).Failure?
    ensures Replies(chunks, model) == Replies(chunks[..k], model)
    decreases |chunks| - k
  {
    if k < |chunks| {
      var init := chunks[..|chunks| - 1];
      assert init[..k] == chunks[..k];
      RepliesFailureSticks(init, k, model);
    } else {
      assert chunks[..k] == chunks;
    }
  }

  /** What `summarize_meeting(transcript)` returns or raises. */
  function Summary(transcript: string, model: Model): Result<string, string>
  {
    match Replies(Chunks(transcript, MaxTokens), model)
    case Success(texts) => Success(Join(texts, " "))
    case Failure(e) => Failure(e)
  }

  /**
   * The loop of `summarize_meeting`: one request per chunk, in order, stopping at the
   * first failure. The ghost `asked` records the chunks asked about: all of them on
   * success, up to and including the failed one otherwise.
   */
  method AskEach(chunks: seq<string>, model: Model) returns (r: Result<seq<string>, string>, ghost asked: seq<string>)
    ensures r == Replies(chunks, model)
    ensures asked <= chunks
    ensures r.Success? ==> asked == chunks
    ensures r.Failure? ==> |asked| >= 1 && model(Prompt(asked[|asked| - 1])) == Failure(r.error)
  {
    var summaries: seq<string> := [];
    asked := [];
    var i := 0;
    while i < |chunks|
      invariant 0 <= i <= |chunks|
      invariant Replies(chunks[..i], model) == Success(summaries)
      invariant asked == chunks[..i]
    {
      var chunk := chunks[i];
      var response := model(Prompt(chunk));
      asked := asked + [chunk];
      RepliesExtend(chunks, i, model);
      assert asked == chunks[..i + 1];
      if response.Failure? {
        RepliesFailureSticks(chunks, i + 1, model);
        r := Failure(response.error);
        return;
      }
      summaries := summaries + [response.value];
      i := i + 1;
    }
    assert chunks[..i] == chunks;
    r := Success(summaries);
  }

  /** One more chunk: its request is made only if all before it succeeded. */
  lemma RepliesExtend(chunks: seq<string>, i: nat, model: Model)
    requires i < |chunks|
    ensures var before := Replies(chunks[..i], model);
      var reply := model(Prompt(chunks[i]));
      && (before.Failure? ==> Replies(chunks[..i + 1], model) == before)
      && (before.Success? && reply.Failure? ==> Replies(chunks[..i + 1], model) == Failure(reply.error))
      && (before.Success? && reply.Success? ==> Replies(chunks[..i + 1], model) == Success(before.value + [reply.value]))
  {
    assert chunks[..i + 1][..i] == chunks[..i];
  }

  /**
   * `summarize_meeting`: the transcript's chunks are asked about in order and the
   * answers joined by a space; the first failure is raised, with nothing partial.
   */
  method SummarizeMeeting(transcript: string, model: Model) returns (r: Result<string, string>, ghost asked: seq<string>)
    ensures r == Summary(transcript, model)
    ensures asked <= Chunks(transcript, MaxTokens)
    ensures r.Success? ==> asked == Chunks(transcript, MaxTokens)
    ensures r.Failure? ==> |asked| >= 1 && model(Prompt(asked[|asked| - 1])) == Failure(r.error)
  {
    var chunks := SplitIntoChunks(transcript, MaxTokens);
    var replies;
    replies, asked := AskEach(chunks, model);
    match replies
    case Failure(e) =>
      r := Failure(e);
    case Success(texts) =>
      r := Success(Join(texts, " "));
  }

  /** Even a blank transcript is sent to the model: it always has at least one chunk. */
  lemma SummaryAlwaysAsks(transcript: string, model: Model)
    ensures Summary(transcript, model).Success? ==>
      model(Prompt(Chunks(transcript, MaxTokens)[0])).Success?
    ensures Summary(transcript, model).Failure? ==>
      exists j :: 0 <= j < |Chunks(transcript, MaxTokens)| && model(Prompt(Chunks(transcript, MaxTokens)[j])).Failure?
  {
    ChunksNotEmpty(transcript, MaxTokens);
    RepliesMeaning(Chunks(transcript, MaxTokens), model);
  }
}
