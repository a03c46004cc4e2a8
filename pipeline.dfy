/**
 * `process_audio_file` and `transcribe_audio` of test.py: the audio bytes are
 * written to a temporary file, too-short payloads and silent transcripts are
 * answered with fixed messages, everything else is summarised, and the
 * temporary file is removed whichever way the function is left.
 */
module Pipeline {
  import opened Wrappers
  import opened Text
  import opened Chunker
  import opened Summarizer

  type byte = bv8

  /** The external capabilities, passed in rather than loaded at start-up. */
  datatype Backends = Backends(
    ffmpegFound: bool,                              // `shutil.which("ffmpeg")` found the program
    transcriber: seq<byte> -> Result<string, string>, // Whisper on the staged audio
    model: Model)                                   // the summarisation model

  const MinAudioBytes := 500
  const TooShortMessage := "Audio too short to process"
  const NoSpeechMessage := "No speech detected in this audio segment."
  const FfmpegMissingMessage := "ffmpeg not found. Please install ffmpeg and add it to your system's PATH."

  /** The format hints looked for, in the order they are tried. */
  const Hints: seq<string> := ["webm", "wav", "mp4", "m4a"]

  /** The suffix of the temporary file, chosen from the declared format (test.py line 79). */
  function FileExtension(format: string): string
  {
    if Contains(format, "webm") then ".webm"
    else if Contains(format, "wav") then ".wav"
    else if Contains(format, "mp4") then ".mp4"
    else if Contains(format, "m4a") then ".m4a"
    else ".webm"
  }

  /** Hint `k` is the first of the known hints found in `format`. */
  ghost predicate FirstHint(format: string, k: int)
  {
    0 <= k < |Hints| && Contains(format, Hints[k]) && forall j :: 0 <= j < k ==> !Contains(format, Hints[j])
  }

  /** The suffix is the first known hint found in the declared format, and ".webm" when none is. */
  lemma FileExtensionIsFirstHint(format: string)
    ensures forall k :: FirstHint(format, k) ==> FileExtension(format) == "." + Hints[k]
    ensures (forall k :: 0 <= k < |Hints| ==> !Contains(format, Hints[k])) ==> FileExtension(format) == ".webm"
  {
    assert Hints[0] == "webm" && Hints[1] == "wav" && Hints[2] == "mp4" && Hints[3] == "m4a";
    assert "." + "webm" == ".webm" && "." + "wav" == ".wav" && "." + "mp4" == ".mp4" && "." + "m4a" == ".m4a";
  }

  /** `transcribe_audio`: refuses to run without ffmpeg, otherwise returns Whisper's text as it is. */
  function TranscribeAudio(env: Backends, audio: seq<byte>): Result<string, string>
  {
    if !env.ffmpegFound then Failure(FfmpegMissingMessage) else env.transcriber(audio)
  }

  /**
   * What a handler did besides computing its result: the staged file (its suffix or name,
   * whether it was written, whether it still exists), whether `transcribe_audio` was called (it may
   * still have refused for want of ffmpeg), and
   * the chunks the summarisation model was asked about.
   */
  datatype Effects = Effects(stagedAs: string, staged: bool, stagedExists: bool, transcribeCalled: bool, asked: seq<string>)

  /** A (transcript, summary) pair from a summary attempt. */
  function Paired(transcript: string, summary: Result<string, string>): Result<(string, string), string>
  {
    match summary
    case Success(s) => Success((transcript, s))
    case Failure(e) => Failure(e)
  }

  /** `process_audio_file(audio_bytes, audio_format)`. */
  method ProcessAudioFile(audio: seq<byte>, format: string, env: Backends)
    returns (r: Result<(string, string), string>, ghost effects: Effects)
    ensures effects.staged && !effects.stagedExists && effects.stagedAs == FileExtension(format)
    ensures effects.transcribeCalled <==> |audio| >= MinAudioBytes
    ensures |audio| < MinAudioBytes ==> r == Success(("", TooShortMessage)) && effects.asked == []
    ensures |audio| >= MinAudioBytes && TranscribeAudio(env, audio).Failure? ==>
      r == Failure(TranscribeAudio(env, audio).error) && effects.asked == []
    ensures |audio| >= MinAudioBytes && TranscribeAudio(env, audio).Success? ==>
      var t := TranscribeAudio(env, audio).value;
      if IsBlank(t) then r == Success((t, NoSpeechMessage)) && effects.asked == []
      else r == Paired(t, Summary(t, env.model)) && |effects.asked| >= 1 && effects.asked <= Chunks(t, MaxTokens)
  {
    var suffix := FileExtension(format);
    // NamedTemporaryFile(suffix=..., delete=False): written and closed, not yet removed
    ghost var onDisk := true;
    ghost var transcribeCalled := false;
    ghost var asked: seq<string> := [];
    if |audio| < MinAudioBytes {
      r := Success(("", TooShortMessage));
    } else {
      transcribeCalled := true;
      var transcript := TranscribeAudio(env, audio);
      match transcript
      case Failure(e) =>
        r := Failure(e);
      case Success(t) =>
        if IsBlank(t) {
          r := Success((t, NoSpeechMessage));
        } else {
          var summary;
          summary, asked := SummarizeMeeting(t, env.model);
          ChunksNotEmpty(t, MaxTokens);
          r := Paired(t, summary);
        }
    }
    // the `finally` clause: the temporary file is removed on every path
    onDisk := false;
    effects := Effects(suffix, true, onDisk, transcribeCalled, asked);
  }
}
