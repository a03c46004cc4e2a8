/**
 * The sentence chunker `split_into_chunks` of test.py: a greedy pass over
 * `text.split('. ')` that packs sentences into chunks of about `maxTokens`
 * characters, appending ". " after every sentence and stripping each chunk.
 */
module Chunker {
  import opened Text

  /** The loop's two variables: the chunks closed so far and the chunk being filled. */
  datatype Accumulator = Accumulator(chunks: seq<string>, chunk: string)

  /** One iteration of the loop body, for one sentence. */
  function Step(acc: Accumulator, sentence: string, maxTokens: int): Accumulator
  {
    if |acc.chunk + sentence| < maxTokens then acc.(chunk := acc.chunk + sentence + ". ")
    else Accumulator(acc.chunks + [Strip(acc.chunk)], sentence + ". ")
  }

  /** The loop's state after it has consumed `sentences`, in order. */
  function Run(sentences: seq<string>, maxTokens: int): Accumulator
    decreases |sentences|
  {
    if sentences == [] then Accumulator([], "")
    else Step(Run(sentences[..|sentences| - 1], maxTokens), sentences[|sentences| - 1], maxTokens)
  }

  /** The tail of the function: a non-empty open chunk is closed. */
  function Flush(acc: Accumulator): seq<string>
  {
    if acc.chunk != "" then acc.chunks + [Strip(acc.chunk)] else acc.chunks
  }

  /** What `split_into_chunks(text, maxTokens)` returns. */
  function Chunks(text: string, maxTokens: int): seq<string>
  {
    Flush(Run(SplitSentences(text), maxTokens))
  }

  /** `split_into_chunks`, as the loop it is. */
  method SplitIntoChunks(text: string, maxTokens: int) returns (chunks: seq<string>)
    ensures chunks == Chunks(text, maxTokens)
  {
    var sentences := SplitSentences(text);
    var chunk := "";
    chunks := [];
    for i := 0 to |sentences|
      invariant Accumulator(chunks, chunk) == Run(sentences[..i], maxTokens)
    {
      assert sentences[..i + 1][..i] == sentences[..i];
      var sentence := sentences[i];
      if |chunk + sentence| < maxTokens {
        chunk := chunk + sentence + ". ";
      } else {
        chunks := chunks + [Strip(chunk)];
        chunk := sentence + ". ";
      }
    }
    assert sentences[..|sentences|] == sentences;
    if chunk != "" {
      chunks := chunks + [Strip(chunk)];
    }
  }

  // ---------------------------------------------------------------------
  // Facts about one open chunk

  predicate EndsWithDotSpace(c: string)
  {
    |c| >= 2 && c[|c| - 2] == '.' && c[|c| - 1] == ' '
  }

  /** Stripping an open chunk drops its final space and keeps its final '.'. */
  lemma StripOpenChunk(c: string)
    requires EndsWithDotSpace(c)
    ensures Strip(c) == LStrip(c[..|c| - 1])
    ensures Strip(c) != "" && |Strip(c)| <= |c| - 1 && Strip(c)[|Strip(c)| - 1] == '.'
  {
    var body := c[..|c| - 1];
    assert RStrip(c) == RStrip(body);
    assert RStrip(body) == body;
    assert !IsSpace(body[|body| - 1]);
    LStripMeaning(body);
  }

  /** An open chunk that does not start with whitespace loses only its final space. */
  lemma StripTidyChunk(c: string)
    requires EndsWithDotSpace(c) && !IsSpace(c[0])
    ensures Strip(c) == c[..|c| - 1]
  {
    StripOpenChunk(c);
    LStripKeeps(c[..|c| - 1]);
  }

  lemma DotSpaceAppended(x: string)
    ensures EndsWithDotSpace(x + ". ")
  {
    var c := x + ". ";
    assert c[|c| - 2] == '.' && c[|c| - 1] == ' ';
  }

  lemma StepEndsWithDotSpace(acc: Accumulator, sentence: string, maxTokens: int)
    ensures EndsWithDotSpace(Step(acc, sentence, maxTokens).chunk)
  {
    if |acc.chunk + sentence| < maxTokens {
      DotSpaceAppended(acc.chunk + sentence);
    } else {
      DotSpaceAppended(sentence);
    }
  }

  lemma RunEndsWithDotSpace(sentences: seq<string>, maxTokens: int)
    requires sentences != []
    ensures EndsWithDotSpace(Run(sentences, maxTokens).chunk)
  {
    StepEndsWithDotSpace(Run(sentences[..|sentences| - 1], maxTokens), sentences[|sentences| - 1], maxTokens);
  }

  /** The chunks closed after consuming a prefix of the sentences are a prefix of the final ones. */
  lemma {:induction false} RunPrefix(sentences: seq<string>, i: nat, maxTokens: int)
    requires i <= |sentences|
    ensures Run(sentences[..i], maxTokens).chunks <= Run(sentences, maxTokens).chunks
    decreases |sentences| - i
  {
    if i < |sentences| {
      var init := sentences[..|sentences| - 1];
      assert init[..i] == sentences[..i];
      RunPrefix(init, i, maxTokens);
    } else {
      assert sentences[..i] == sentences;
    }
  }

  // ---------------------------------------------------------------------
  // At least one chunk; the empty text

  lemma ChunksNotEmpty(text: string, maxTokens: int)
    ensures |Chunks(text, maxTokens)| >= 1
  {
    RunEndsWithDotSpace(SplitSentences(text), maxTokens);
  }

  /** A single short sentence becomes a single chunk, with "." appended. */
  lemma OneSentence(s: string, maxTokens: int)
    requires |s| < maxTokens && (s == "" || !IsSpace(s[0]))
    ensures Flush(Run([s], maxTokens)) == [s + "."]
  {
    assert [s][..0] == [];
    var c := s + ". ";
    assert Run([s], maxTokens) == Accumulator([], c);
    assert c[0] == if s == "" then '.' else s[0];
    StripTidyChunk(c);
    assert c[..|c| - 1] == s + ".";
  }

  /** The empty transcript becomes the single chunk ".". */
  lemma EmptyTextChunk(maxTokens: int)
    requires maxTokens > 0
    ensures Chunks("", maxTokens) == ["."]
  {
    assert SplitSentences("") == [""];
    OneSentence("", maxTokens);
    assert "" + "." == ".";
  }

  // ---------------------------------------------------------------------
  // Which chunk can be empty

  /** Only `cs[0]` can be "", and it is "" exactly when `long` holds; and then there is a first chunk. */
  ghost predicate EmptyOnlyFirst(cs: seq<string>, long: bool)
  {
    && (long ==> |cs| >= 1)
    && forall i :: 0 <= i < |cs| ==> (cs[i] == "" <==> i == 0 && long)
  }

  /** The chunk list extended by one non-empty chunk keeps the property. */
  lemma EmptyOnlyFirstExtend(cs: seq<string>, long: bool, c: string)
    requires EmptyOnlyFirst(cs, long) && c != ""
    ensures EmptyOnlyFirst(cs + [c], long)
  {
    var ext := cs + [c];
    forall i | 0 <= i < |ext| ensures ext[i] == "" <==> i == 0 && long {
      if i < |cs| {
        assert ext[i] == cs[i];
      } else {
        assert ext[i] == c;
      }
    }
  }

  /** The only closed chunk that can be "" is the first, and it is "" exactly when the first sentence is too long. */
  lemma {:induction false} RunEmptyChunk(sentences: seq<string>, maxTokens: int)
    requires sentences != []
    ensures EmptyOnlyFirst(Run(sentences, maxTokens).chunks, |sentences[0]| >= maxTokens)
    decreases |sentences|
  {
    var n := |sentences|;
    var init := sentences[..n - 1];
    var last := sentences[n - 1];
    var before := Run(init, maxTokens);
    var long := |sentences[0]| >= maxTokens;
    assert Run(sentences, maxTokens) == Step(before, last, maxTokens);
    if n == 1 {
      assert init == [];
      assert before == Accumulator([], "");
      if long {
        assert Strip("") == "";
        assert Run(sentences, maxTokens).chunks == [""];
      } else {
        assert Run(sentences, maxTokens).chunks == [];
      }
    } else {
      RunEmptyChunk(init, maxTokens);
      assert init[0] == sentences[0];
      if |before.chunk + last| < maxTokens {
        assert Run(sentences, maxTokens).chunks == before.chunks;
      } else {
        RunEndsWithDotSpace(init, maxTokens);
        StripOpenChunk(before.chunk);
        assert Run(sentences, maxTokens).chunks == before.chunks + [Strip(before.chunk)];
        EmptyOnlyFirstExtend(before.chunks, long, Strip(before.chunk));
      }
    }
  }

  /** The final chunk list, over any non-empty list of sentences. */
  lemma FlushEmptyChunk(sentences: seq<string>, maxTokens: int)
    requires sentences != []
    ensures EmptyOnlyFirst(Flush(Run(sentences, maxTokens)), |sentences[0]| >= maxTokens)
  {
    var acc := Run(sentences, maxTokens);
    RunEmptyChunk(sentences, maxTokens);
    RunEndsWithDotSpace(sentences, maxTokens);
    StripOpenChunk(acc.chunk);
    assert Flush(acc) == acc.chunks + [Strip(acc.chunk)];
    EmptyOnlyFirstExtend(acc.chunks, |sentences[0]| >= maxTokens, Strip(acc.chunk));
  }

  /** `chunks[i] == ""` holds exactly for i = 0 when the first sentence has at least `maxTokens` characters. */
  lemma OnlyFirstChunkCanBeEmpty(text: string, maxTokens: int)
    ensures var cs := Chunks(text, maxTokens);
      forall i :: 0 <= i < |cs| ==> (cs[i] == "" <==> i == 0 && |SplitSentences(text)[0]| >= maxTokens)
  {
    var ss := SplitSentences(text);
    FlushEmptyChunk(ss, maxTokens);
    assert Chunks(text, maxTokens) == Flush(Run(ss, maxTokens));
  }

  // ---------------------------------------------------------------------
  // The size bound

  ghost predicate AllShorterThan(sentences: seq<string>, maxTokens: int)
  {
    forall i :: 0 <= i < |sentences| ==> |sentences[i]| < maxTokens
  }

  /** The open chunk has at most `maxTokens + 1` characters (it ends with ". ") and every closed one at most `maxTokens`. */
  ghost predicate Bounded(acc: Accumulator, maxTokens: int)
  {
    && |acc.chunk| <= maxTokens + 1
    && forall c :: c in acc.chunks ==> |c| <= maxTokens
  }

  lemma StepBounded(acc: Accumulator, s: string, maxTokens: int)
    requires Bounded(acc, maxTokens) && |s| < maxTokens
    requires acc.chunk == "" || EndsWithDotSpace(acc.chunk)
    ensures Bounded(Step(acc, s, maxTokens), maxTokens)
  {
    if |acc.chunk + s| >= maxTokens {
      StripOpenChunk(acc.chunk);
      var next := Accumulator(acc.chunks + [Strip(acc.chunk)], s + ". ");
      assert Step(acc, s, maxTokens) == next;
      assert forall c :: c in next.chunks ==> c in acc.chunks || c == Strip(acc.chunk);
    }
  }

  lemma {:induction false} RunBounded(sentences: seq<string>, maxTokens: int)
    requires sentences != [] && AllShorterThan(sentences, maxTokens)
    ensures Bounded(Run(sentences, maxTokens), maxTokens)
    decreases |sentences|
  {
    var n := |sentences|;
    var init := sentences[..n - 1];
    assert |sentences[n - 1]| < maxTokens;
    if n > 1 {
      assert AllShorterThan(init, maxTokens) by {
        assert forall i :: 0 <= i < n - 1 ==> init[i] == sentences[i];
      }
      RunBounded(init, maxTokens);
      RunEndsWithDotSpace(init, maxTokens);
    } else {
      assert init == [];
    }
    StepBounded(Run(init, maxTokens), sentences[n - 1], maxTokens);
  }

  /** When every sentence is shorter than `maxTokens`, every chunk is non-empty and has at most `maxTokens` characters. */
  lemma ChunksBounded(text: string, maxTokens: int)
    requires AllShorterThan(SplitSentences(text), maxTokens)
    ensures forall c :: c in Chunks(text, maxTokens) ==> c != "" && |c| <= maxTokens
  {
    var ss := SplitSentences(text);
    RunBounded(ss, maxTokens);
    RunEndsWithDotSpace(ss, maxTokens);
    StripOpenChunk(Run(ss, maxTokens).chunk);
    OnlyFirstChunkCanBeEmpty(text, maxTokens);
  }

  /** The bound is reached: a sentence one character shorter than the budget becomes a chunk exactly as long as the budget. */
  lemma BoundIsReached(text: string, maxTokens: int)
    requires text != "" && !IsSpace(text[0]) && NoSeparator(text)
    requires |text| + 1 == maxTokens
    ensures Chunks(text, maxTokens) == [text + "."]
    ensures |Chunks(text, maxTokens)[0]| == maxTokens
  {
    WholeSentence(text);
    OneSentence(text, maxTokens);
  }


  // ---------------------------------------------------------------------
  // Long sentences are never cut

  /** A sentence of at least `maxTokens` characters is emitted whole, with ". " appended and then stripped. */
  lemma LongSentenceKeptWhole(sentences: seq<string>, k: nat, maxTokens: int)
    requires k < |sentences| && |sentences[k]| >= maxTokens
    ensures var acc := Run(sentences[..k + 1], maxTokens);
      && acc.chunk == sentences[k] + ". "
      && |acc.chunks| < |Flush(Run(sentences, maxTokens))|
      && Flush(Run(sentences, maxTokens))[|acc.chunks|] == Strip(sentences[k] + ". ")
  {
    var upTo := sentences[..k + 1];
    assert upTo[..k] == sentences[..k];
    var acc := Run(upTo, maxTokens);
    var whole := Flush(Run(sentences, maxTokens));
    if k + 1 < |sentences| {
      var next := sentences[..k + 2];
      assert next[..k + 1] == upTo;
      RunPrefix(sentences, k + 2, maxTokens);
      assert Run(next, maxTokens).chunks == acc.chunks + [Strip(sentences[k] + ". ")];
    } else {
      assert upTo == sentences;
    }
  }

  lemma LongSentenceInChunks(text: string, k: nat, maxTokens: int)
    requires k < |SplitSentences(text)| && |SplitSentences(text)[k]| >= maxTokens
    ensures Strip(SplitSentences(text)[k] + ". ") in Chunks(text, maxTokens)
  {
    LongSentenceKeptWhole(SplitSentences(text), k, maxTokens);
  }

  /** A too-long first sentence is preceded by the empty chunk "". */
  lemma LongFirstSentence(text: string, maxTokens: int)
    requires |SplitSentences(text)[0]| >= maxTokens
    ensures var cs := Chunks(text, maxTokens);
      |cs| >= 2 && cs[0] == "" && cs[1] == Strip(SplitSentences(text)[0] + ". ")
  {
    var ss := SplitSentences(text);
    LongSentenceKeptWhole(ss, 0, maxTokens);
    assert ss[..1][..0] == [];
    assert Run(ss[..1], maxTokens).chunks == [Strip("")];
    assert Strip("") == "";
    RunPrefix(ss, 1, maxTokens);
  }

  // ---------------------------------------------------------------------
  // Joining the chunks gives the text back

  /** The first sentence fits the budget, and no sentence starts with whitespace. */
  ghost predicate Tidy(sentences: seq<string>, maxTokens: int)
  {
    && (sentences != [] ==> |sentences[0]| < maxTokens)
    && forall i :: 0 <= i < |sentences| ==> sentences[i] == "" || !IsSpace(sentences[i][0])
  }

  /** The loop invariant behind the rejoining property, for one open chunk. */
  ghost predicate Rejoins(acc: Accumulator, text: string)
  {
    && EndsWithDotSpace(acc.chunk)
    && !IsSpace(acc.chunk[0])
    && Join(acc.chunks + [acc.chunk[..|acc.chunk| - 1]], " ") == text + "."
  }

  lemma RejoinsStep(acc: Accumulator, done: seq<string>, s: string, maxTokens: int)
    requires done != [] && Rejoins(acc, Join(done, ". "))
    requires s == "" || !IsSpace(s[0])
    ensures Rejoins(Step(acc, s, maxTokens), Join(done + [s], ". "))
  {
    var before := Join(done, ". ");
    var open := acc.chunk[..|acc.chunk| - 1];
    assert acc.chunk == open + " ";
    JoinSnoc(done, s, ". ");
    assert Join(done + [s], ". ") + "." == before + "." + (" " + s + ".");
    if |acc.chunk + s| < maxTokens {
      assert Step(acc, s, maxTokens) == acc.(chunk := acc.chunk + s + ". ");
      GrowChunk(acc, before, s);
    } else {
      assert Step(acc, s, maxTokens) == Accumulator(acc.chunks + [Strip(acc.chunk)], s + ". ");
      StripTidyChunk(acc.chunk);
      assert Strip(acc.chunk) == open;
      CloseChunk(acc.chunks, open, before, s);
    }
  }

  /** The sentence joins the open chunk. */
  lemma GrowChunk(acc: Accumulator, before: string, s: string)
    requires Rejoins(acc, before)
    ensures Rejoins(acc.(chunk := acc.chunk + s + ". "), before + ". " + s)
  {
    var open := acc.chunk[..|acc.chunk| - 1];
    var tail := " " + s + ".";
    var c := acc.chunk + s + ". ";
    assert c[..|c| - 1] == open + tail;
    assert c[0] == acc.chunk[0];
    JoinExtendLast(acc.chunks, open, tail, " ");
    assert before + "." + tail == before + ". " + s + ".";
  }

  /** The open chunk, without its final space, is closed and the sentence starts a new one. */
  lemma CloseChunk(chunks: seq<string>, open: string, before: string, s: string)
    requires Join(chunks + [open], " ") == before + "."
    requires s == "" || !IsSpace(s[0])
    ensures Rejoins(Accumulator(chunks + [open], s + ". "), before + ". " + s)
  {
    var c := s + ". ";
    assert c[..|c| - 1] == s + ".";
    assert c[0] == if s == "" then '.' else s[0];
    JoinSnoc(chunks + [open], s + ".", " ");
    assert before + "." + " " + (s + ".") == before + ". " + s + ".";
  }

  lemma {:induction false} RunRejoins(sentences: seq<string>, maxTokens: int)
    requires sentences != [] && Tidy(sentences, maxTokens)
    ensures Rejoins(Run(sentences, maxTokens), Join(sentences, ". "))
    decreases |sentences|
  {
    var n := |sentences|;
    if n == 1 {
      RejoinsFirst(sentences, maxTokens);
    } else {
      var init := sentences[..n - 1];
      TidyInit(sentences, maxTokens);
      RunRejoins(init, maxTokens);
      RejoinsStep(Run(init, maxTokens), init, sentences[n - 1], maxTokens);
      assert init + [sentences[n - 1]] == sentences;
    }
  }

  /** The state after the first sentence. */
  lemma RejoinsFirst(sentences: seq<string>, maxTokens: int)
    requires |sentences| == 1 && Tidy(sentences, maxTokens)
    ensures Rejoins(Run(sentences, maxTokens), Join(sentences, ". "))
  {
    var s := sentences[0];
    assert sentences[..0] == [];
    assert Run(sentences, maxTokens) == Accumulator([], s + ". ");
    assert (s + ". ")[..|s| + 1] == s + ".";
  }

  /** The sentences but the last are still tidy, and the last one does not start with whitespace. */
  lemma TidyInit(sentences: seq<string>, maxTokens: int)
    requires sentences != [] && Tidy(sentences, maxTokens)
    ensures Tidy(sentences[..|sentences| - 1], maxTokens)
    ensures var s := sentences[|sentences| - 1]; s == "" || !IsSpace(s[0])
  {
    var init := sentences[..|sentences| - 1];
    assert forall i :: 0 <= i < |init| ==> init[i] == sentences[i];
  }

  /** The final chunk list rejoins the sentences, over any non-empty tidy list of sentences. */
  lemma FlushRejoins(sentences: seq<string>, maxTokens: int)
    requires sentences != [] && Tidy(sentences, maxTokens)
    ensures Join(Flush(Run(sentences, maxTokens)), " ") == Join(sentences, ". ") + "."
  {
    RunRejoins(sentences, maxTokens);
    FlushOfRejoins(Run(sentences, maxTokens), Join(sentences, ". "));
  }

  /** Closing the open chunk of a rejoining state completes the text. */
  lemma FlushOfRejoins(acc: Accumulator, text: string)
    requires Rejoins(acc, text)
    ensures Join(Flush(acc), " ") == text + "."
  {
    StripTidyChunk(acc.chunk);
    assert Flush(acc) == acc.chunks + [acc.chunk[..|acc.chunk| - 1]];
  }

  /**
   * When the first sentence is shorter than `maxTokens` and no sentence starts with
   * whitespace, joining the chunks with " " gives the text followed by ".".
   */
  lemma ChunksRejoin(text: string, maxTokens: int)
    requires Tidy(SplitSentences(text), maxTokens)
    ensures Join(Chunks(text, maxTokens), " ") == text + "."
  {
    var ss := SplitSentences(text);
    FlushRejoins(ss, maxTokens);
    SplitSentencesRejoin(text);
    assert Chunks(text, maxTokens) == Flush(Run(ss, maxTokens));
  }

  /** A leading space is lost: the exact rejoin needs sentences that do not start with whitespace. */
  lemma LeadingSpaceDropped()
    ensures Chunks(" Hi", 3000) == ["Hi."]
  {
    var text := " Hi";
    assert NoSeparator(text);
    WholeSentence(text);
    assert [text][..0] == [];
    assert Run([text], 3000) == Accumulator([], text + ". ");
    var open := text + ". ";
    assert open[..4] == " Hi." && open[4] == ' ';
    assert RStrip(open) == RStrip(" Hi.");
    assert RStrip(" Hi.") == " Hi.";
    assert " Hi."[1..] == "Hi.";
    assert LStrip(" Hi.") == LStrip("Hi.") == "Hi.";
  }

  // ---------------------------------------------------------------------
  // The chunks keep every non-whitespace character, in order, for any input

  /** The closed chunks and the open one hold the non-whitespace characters of the sentences read so far. */
  ghost predicate Keeps(acc: Accumulator, sentences: seq<string>)
  {
    Squash(Join(acc.chunks, " ")) + Squash(acc.chunk) == Squash(Join(sentences, ". ") + ". ")
  }

  lemma KeepsStep(acc: Accumulator, done: seq<string>, s: string, maxTokens: int)
    requires done != [] && Keeps(acc, done)
    ensures Keeps(Step(acc, s, maxTokens), done + [s])
  {
    var before := Join(done, ". ") + ". ";
    JoinSnoc(done, s, ". ");
    assert Join(done + [s], ". ") + ". " == before + (s + ". ");
    SquashAppend(before, s + ". ");
    if |acc.chunk + s| < maxTokens {
      assert acc.chunk + s + ". " == acc.chunk + (s + ". ");
      SquashAppend(acc.chunk, s + ". ");
    } else {
      SquashJoinSnoc(acc.chunks, Strip(acc.chunk));
      SquashStrip(acc.chunk);
    }
  }

  lemma {:induction false} RunKeeps(sentences: seq<string>, maxTokens: int)
    requires sentences != []
    ensures Keeps(Run(sentences, maxTokens), sentences)
    decreases |sentences|
  {
    var n := |sentences|;
    var init := sentences[..n - 1];
    if n == 1 {
      KeepsFirst(sentences, maxTokens);
    } else {
      RunKeeps(init, maxTokens);
      KeepsStep(Run(init, maxTokens), init, sentences[n - 1], maxTokens);
      assert init + [sentences[n - 1]] == sentences;
    }
  }

  /** The state after the first sentence. */
  lemma KeepsFirst(sentences: seq<string>, maxTokens: int)
    requires |sentences| == 1
    ensures Keeps(Run(sentences, maxTokens), sentences)
  {
    var s := sentences[0];
    assert sentences[..0] == [];
    assert Join(sentences, ". ") == s;
    if |s| < maxTokens {
      assert Run(sentences, maxTokens) == Accumulator([], s + ". ");
    } else {
      assert Strip("") == "";
      assert Run(sentences, maxTokens) == Accumulator([""], s + ". ");
    }
  }

  lemma FlushKeeps(acc: Accumulator, sentences: seq<string>)
    requires Keeps(acc, sentences)
    ensures Squash(Join(Flush(acc), " ")) == Squash(Join(sentences, ". ") + ". ")
  {
    if acc.chunk != "" {
      SquashJoinSnoc(acc.chunks, Strip(acc.chunk));
      SquashStrip(acc.chunk);
    }
  }

  /**
   * For every text and budget, the chunks joined by " " hold exactly the text's
   * non-whitespace characters, in order, followed by ".": sentences are neither lost,
   * duplicated nor reordered, whatever their length or leading whitespace.
   */
  lemma ChunksKeepOrder(text: string, maxTokens: int)
    ensures Squash(Join(Chunks(text, maxTokens), " ")) == Squash(text + ".")
  {
    var ss := SplitSentences(text);
    var acc := Run(ss, maxTokens);
    RunKeeps(ss, maxTokens);
    FlushKeeps(acc, ss);
    assert Chunks(text, maxTokens) == Flush(acc);
    SplitSentencesRejoin(text);
    SquashDotSpace(text);
  }

  /** The space after the final "." carries no character of the text. */
  lemma SquashDotSpace(text: string)
    ensures Squash(text + ". ") == Squash(text + ".")
  {
    assert text + ". " == (text + ".") + " ";
    SquashAppend(text + ".", " ");
  }
}
