/**
 * The request and socket handlers of test.py, the Gemini-based server, as far as
 * they decide what is answered and what the `meetings` collection becomes.
 * Request bodies and socket payloads are `Document`s, the clock reading is the
 * parameter `now`, and `secure_filename` is the parameter `secureFilename`.
 */
module GeminiServer {
  import opened Wrappers
  import opened Text
  import opened Chunker
  import opened Summarizer
  import opened Pipeline
  import opened Timestamps
  import opened Documents
  import opened Store
  import opened Uploads

  const NoFilePartMessage := "No file part"
  const InvalidFileMessage := "Invalid file"
  const NotFoundMessage := "Meeting not found"
  const UpdateFieldsMessage := "Summary and transcript are required"
  const SaveFieldsMessage := "Transcript and summary are required"
  const SaveFailedMessage := "Failed to save meeting: 'NoneType' object has no attribute 'get'"
  const NothingToSaveMessage := "No transcript or notes to save"
  const NoMeaningfulSpeechMessage := "No meaningful speech detected"
  const FilenameRequiredMessage := "Filename is required"
  const LiveUpdatedMessage := "Meeting updated successfully"
  const MinLiveTranscript := 10

  // ---------------------------------------------------------------------
  // Generated names

  const LivePrefix := "Live_Meeting_"
  const RecordedPrefix := "Recorded_Meeting_"

  /** `f"Live_Meeting_{timestamp.strftime('%Y%m%d_%H%M%S')}"`. */
  function LiveName(now: DateTime): (s: string)
    ensures |s| == 28 && s[..13] == LivePrefix
  {
    LivePrefix + Stamp(now)
  }

  /** `f"Recorded_Meeting_{timestamp.strftime('%Y%m%d_%H%M%S')}"`. */
  function RecordedName(now: DateTime): (s: string)
    ensures |s| == 32 && s[..17] == RecordedPrefix
  {
    RecordedPrefix + Stamp(now)
  }

  /**
   * A live and a recorded meeting never get the same name, and two meetings of one kind
   * get the same name exactly when they are saved within the same second.
   */
  lemma GeneratedNames(a: DateTime, b: DateTime)
    requires Valid(a) && Valid(b)
    ensures LiveName(a) != RecordedName(b)
    ensures LiveName(a) == LiveName(b) <==>
      (a.year, a.month, a.day, a.hour, a.minute, a.second) == (b.year, b.month, b.day, b.hour, b.minute, b.second)
    ensures RecordedName(a) == RecordedName(b) <==>
      (a.year, a.month, a.day, a.hour, a.minute, a.second) == (b.year, b.month, b.day, b.hour, b.minute, b.second)
  {
    StampIdentifiesSecond(a, b);
    assert LiveName(a)[13..] == Stamp(a) && LiveName(b)[13..] == Stamp(b);
    assert RecordedName(a)[17..] == Stamp(a) && RecordedName(b)[17..] == Stamp(b);
  }

  // ---------------------------------------------------------------------
  // Guards

  /** Why `upload_file` refuses the request before saving anything, if it does. */
  function UploadRejection(file: Option<Upload>): (r: Option<string>)
    ensures r.None? <==> file.Some? && AllowedFile(file.value.filename)
    ensures r.Some? ==> (r.value == NoFilePartMessage <==> file.None?)
  {
    if file.None? then Some(NoFilePartMessage)
    else if file.value.filename == "" || !AllowedFile(file.value.filename) then Some(InvalidFileMessage)
    else None
  }

  /** Why `update_meeting` refuses the body, if it does. */
  function UpdateRejection(body: Option<Document>): (r: Option<string>)
    ensures r.None? <==> body.Some? && "summary" in body.value && "transcript" in body.value
    ensures r.Some? ==> r.value == UpdateFieldsMessage
  {
    if body.None? || body.value == map[] || "summary" !in body.value || "transcript" !in body.value
    then Some(UpdateFieldsMessage)
    else None
  }

  /** `not transcript or not summary` in `save_meeting`. */
  function SaveRejection(transcript: Value, summary: Value): (r: Option<string>)
    ensures r.None? <==> transcript.Str? && transcript.s != "" && summary.Str? && summary.s != ""
    ensures r.Some? ==> r.value == SaveFieldsMessage
  {
    if !Truthy(transcript) || !Truthy(summary) then Some(SaveFieldsMessage) else None
  }

  /** The two checks of `save_live_meeting`, in order. */
  function LiveSaveRejection(transcript: Value, notes: Value): (r: Option<string>)
    ensures r.None? <==>
      (Truthy(transcript) && |Strip(transcript.s)| >= MinLiveTranscript) || (!Truthy(transcript) && Truthy(notes))
    ensures r == Some(NothingToSaveMessage) <==> !Truthy(transcript) && !Truthy(notes)
    ensures r == Some(NoMeaningfulSpeechMessage) <==> Truthy(transcript) && |Strip(transcript.s)| < MinLiveTranscript
  {
    if !Truthy(transcript) && !Truthy(notes) then Some(NothingToSaveMessage)
    else if Truthy(transcript) && |Strip(transcript.s)| < MinLiveTranscript then Some(NoMeaningfulSpeechMessage)
    else None
  }

  /**
   * A non-empty transcript shorter than ten characters is refused even when there are notes,
   * and so is a whitespace-only one of any length: only an empty transcript defers to the notes.
   */
  lemma ShortTranscriptRefused(transcript: string, notes: Value)
    requires transcript != "" && (|transcript| < MinLiveTranscript || IsBlank(transcript))
    ensures LiveSaveRejection(Str(transcript), notes) == Some(NoMeaningfulSpeechMessage)
  {
    RStripMeaning(transcript);
    LStripMeaning(RStrip(transcript));
  }

  /** The two checks of `update_live_meeting`, in order. */
  function LiveUpdateRejection(filename: Value, transcript: Value, summary: Value): (r: Option<string>)
    ensures r.None? <==> Truthy(filename) && transcript.Str? && summary.Str?
    ensures r == Some(FilenameRequiredMessage) <==> !Truthy(filename)
  {
    if !Truthy(filename) then Some(FilenameRequiredMessage)
    else if transcript.Null? || summary.Null? then Some(SaveFieldsMessage)
    else None
  }

  // ---------------------------------------------------------------------
  // Handlers

  /** The stored record of a successful upload. */
  function UploadRecord(name: string, summary: string, transcript: string, now: DateTime): Meeting
  {
    Meeting(name, Str(summary), Str(transcript), now, None, Some(Str("upload")))
  }

  /**
   * `upload_file`: the file is checked, saved under its secured name, size-checked,
   * transcribed and summarised with no blank-transcript check, and recorded; the saved
   * file is removed on every path and the collection changes only on success.
   */
  method UploadFile(store: MeetingCollection, file: Option<Upload>, secureFilename: string -> string, env: Backends, now: DateTime)
    returns (r: Result<(string, string), string>, ghost effects: Effects)
    modifies store
    ensures !effects.stagedExists
    ensures UploadRejection(file).Some? ==>
      r == Failure(UploadRejection(file).value) && store.records == old(store.records) &&
      !effects.staged && !effects.transcribeCalled && effects.asked == []
    ensures UploadRejection(file).None? ==> effects.staged && effects.stagedAs == secureFilename(file.value.filename)
    ensures UploadRejection(file).None? && |file.value.content| > MaxContentLength ==>
      r == Failure(TooLargeMessage) && store.records == old(store.records) && !effects.transcribeCalled
    ensures UploadRejection(file).None? && |file.value.content| <= MaxContentLength ==>
      effects.transcribeCalled &&
      match TranscribeAudio(env, file.value.content)
      case Failure(e) => r == Failure(e) && store.records == old(store.records) && effects.asked == []
      case Success(t) =>
        && |effects.asked| >= 1 && effects.asked <= Chunks(t, MaxTokens)
        && match Summary(t, env.model)
           case Failure(e) => r == Failure(e) && store.records == old(store.records)
           case Success(s) =>
             r == Success((s, t)) &&
             store.records == old(store.records) + [UploadRecord(secureFilename(file.value.filename), s, t, now)]
  {
    var rejection := UploadRejection(file);
    if rejection.Some? {
      r := Failure(rejection.value);
      effects := Effects("", false, false, false, []);
      return;
    }
    var filename := secureFilename(file.value.filename);
    // file.save(filepath)
    ghost var onDisk := true;
    ghost var transcribeCalled := false;
    ghost var asked: seq<string> := [];
    if |file.value.content| > MaxContentLength {
      r := Failure(TooLargeMessage);
    } else {
      transcribeCalled := true;
      var transcript := TranscribeAudio(env, file.value.content);
      match transcript
      case Failure(e) =>
        r := Failure(e);
      case Success(t) =>
        var summary;
        summary, asked := SummarizeMeeting(t, env.model);
        ChunksNotEmpty(t, MaxTokens);
        match summary
        case Failure(e) =>
          r := Failure(e);
        case Success(s) =>
          store.InsertOne(UploadRecord(filename, s, t, now));
          r := Success((s, t));
    }
    // os.remove(filepath), on the success path and in the exception handler alike
    onDisk := false;
    effects := Effects(filename, true, onDisk, transcribeCalled, asked);
  }

  /** `get_meeting`: the first record with the name, or "Meeting not found". */
  method GetMeeting(store: MeetingCollection, filename: string) returns (r: Result<Meeting, string>)
    ensures r.Failure? <==> forall i :: 0 <= i < |store.records| ==> store.records[i].filename != filename
    ensures r.Failure? ==> r.error == NotFoundMessage
    ensures r.Success? ==> (FirstNamed(store.records, filename).Some? &&
      r.value == store.records[FirstNamed(store.records, filename).value])
  {
    var found := store.FindOne(filename);
    match found
    case None =>
      r := Failure(NotFoundMessage);
    case Some(m) =>
      r := Success(m);
  }

  const TitleLine := "Meeting Transcript\nFilename: "
  const DateLabel := "\nDate: "
  const SummaryHeading := "\n\nSUMMARY:\n"
  const TranscriptHeading := "\n\nTRANSCRIPT:\n"

  /** The text file `download_transcript` serves for a record. */
  function TranscriptBody(m: Meeting): string
  {
    TitleLine + m.filename + DateLabel + DateText(m.timestamp) +
    SummaryHeading + Show(m.summary) + TranscriptHeading + Show(m.transcript) + "\n"
  }

  /**
   * The download text is, in order: the title and filename lines, the date line, the
   * summary under its heading, the transcript under its heading, and a final newline.
   */
  lemma TranscriptBodyLayout(m: Meeting)
    ensures var s := TranscriptBody(m);
      var a := |TitleLine| + |m.filename|;
      var b := a + |DateLabel| + |DateText(m.timestamp)|;
      var c := b + |SummaryHeading| + |Show(m.summary)|;
      && |s| == c + |TranscriptHeading| + |Show(m.transcript)| + 1
      && s[..|TitleLine|] == TitleLine && s[|TitleLine|..a] == m.filename
      && s[a..a + |DateLabel|] == DateLabel && s[a + |DateLabel|..b] == DateText(m.timestamp)
      && s[b..b + |SummaryHeading|] == SummaryHeading && s[b + |SummaryHeading|..c] == Show(m.summary)
      && s[c..c + |TranscriptHeading|] == TranscriptHeading && s[c + |TranscriptHeading|..|s| - 1] == Show(m.transcript)
      && s[|s| - 1] == '\n'
  {
    Sections(TitleLine, m.filename, DateLabel, DateText(m.timestamp),
      SummaryHeading, Show(m.summary), TranscriptHeading, Show(m.transcript));
  }

  /** Each of eight strings followed by a newline can be sliced back out of their concatenation. */
  lemma Sections(x1: string, x2: string, x3: string, x4: string, x5: string, x6: string, x7: string, x8: string)
    ensures var s := x1 + x2 + x3 + x4 + x5 + x6 + x7 + x8 + "\n";
      var a := |x1| + |x2|;
      var b := a + |x3| + |x4|;
      var c := b + |x5| + |x6|;
      && |s| == c + |x7| + |x8| + 1
      && s[..|x1|] == x1 && s[|x1|..a] == x2
      && s[a..a + |x3|] == x3 && s[a + |x3|..b] == x4
      && s[b..b + |x5|] == x5 && s[b + |x5|..c] == x6
      && s[c..c + |x7|] == x7 && s[c + |x7|..|s| - 1] == x8
      && s[|s| - 1] == '\n'
  {
    var s := x1 + x2 + x3 + x4 + x5 + x6 + x7 + x8 + "\n";
    var p7 := x1 + x2 + x3 + x4 + x5 + x6 + x7;
    assert s[..|p7| + |x8|] == p7 + x8;
    Peel(p7, x8, s);
    Peel(x1 + x2 + x3 + x4 + x5 + x6, x7, s);
    Peel(x1 + x2 + x3 + x4 + x5, x6, s);
    Peel(x1 + x2 + x3 + x4, x5, s);
    Peel(x1 + x2 + x3, x4, s);
    Peel(x1 + x2, x3, s);
    Peel(x1, x2, s);
  }

  /** A prefix of `s` made of `p` then `x` leaves `p` as a shorter prefix and `x` right after it. */
  lemma Peel(p: string, x: string, s: string)
    requires |p| + |x| <= |s| && s[..|p| + |x|] == p + x
    ensures s[..|p|] == p && s[|p|..|p| + |x|] == x
  {
    assert s[..|p|] == (p + x)[..|p|];
    assert s[|p|..|p| + |x|] == (p + x)[|p|..];
  }

  /** `download_transcript`: the body and the attachment name, or "Meeting not found". */
  method DownloadTranscript(store: MeetingCollection, filename: string) returns (r: Result<(string, string), string>)
    ensures r.Failure? <==> forall i :: 0 <= i < |store.records| ==> store.records[i].filename != filename
    ensures r.Failure? ==> r.error == NotFoundMessage
    ensures r.Success? ==> (FirstNamed(store.records, filename).Some? &&
      r.value == (TranscriptBody(store.records[FirstNamed(store.records, filename).value]), filename + "_transcript.txt"))
  {
    var found := store.FindOne(filename);
    match found
    case None =>
      r := Failure(NotFoundMessage);
    case Some(m) =>
      r := Success((TranscriptBody(m), filename + "_transcript.txt"));
  }

  /** `update_meeting`: sets summary, transcript and `updated_at` on the first record with the name. */
  method UpdateMeeting(store: MeetingCollection, filename: string, body: Option<Document>, now: DateTime)
    returns (r: Result<string, string>)
    modifies store
    ensures UpdateRejection(body).Some? ==> r == Failure(UpdateFieldsMessage) && store.records == old(store.records)
    ensures UpdateRejection(body).None? ==>
      && store.records == UpdatedByName(old(store.records), filename, body.value["summary"], body.value["transcript"], Some(now))
      && (r.Success? <==> exists i :: 0 <= i < |old(store.records)| && old(store.records)[i].filename == filename)
      && (r.Success? ==> r.value == filename)
      && (r.Failure? ==> r.error == NotFoundMessage)
  {
    if UpdateRejection(body).Some? {
      r := Failure(UpdateFieldsMessage);
      return;
    }
    var d := body.value;
    var matched := store.UpdateOne(filename, d["summary"], d["transcript"], Some(now));
    if !matched {
      r := Failure(NotFoundMessage);
    } else {
      r := Success(filename);
    }
  }

  /** The stored record of `save_meeting`. */
  function RecordedMeeting(d: Document, now: DateTime): Meeting
  {
    Meeting(RecordedName(now), Get(d, "summary", Str("")), Get(d, "transcript", Str("")), now, None,
            Some(Get(d, "meeting_type", Str("recorded"))))
  }

  /** `save_meeting`: records a finished recording under a generated name. */
  method SaveMeeting(store: MeetingCollection, body: Option<Document>, now: DateTime) returns (r: Result<string, string>)
    modifies store
    ensures body.None? ==> r == Failure(SaveFailedMessage) && store.records == old(store.records)
    ensures body.Some? ==>
      var rejection := SaveRejection(Get(body.value, "transcript", Str("")), Get(body.value, "summary", Str("")));
      && (rejection.Some? ==> r == Failure(SaveFieldsMessage) && store.records == old(store.records))
      && (rejection.None? ==> r == Success(RecordedName(now)) &&
                              store.records == old(store.records) + [RecordedMeeting(body.value, now)])
  {
    if body.None? {
      // `data.get` on the missing body raises, and the handler reports it
      r := Failure(SaveFailedMessage);
      return;
    }
    var d := body.value;
    var transcript := Get(d, "transcript", Str(""));
    var summary := Get(d, "summary", Str(""));
    if SaveRejection(transcript, summary).Some? {
      r := Failure(SaveFieldsMessage);
      return;
    }
    store.InsertOne(RecordedMeeting(d, now));
    r := Success(RecordedName(now));
  }

  /** The stored record of `save_live_meeting`. */
  function LiveMeeting(data: Document, now: DateTime): Meeting
  {
    Meeting(LiveName(now), Get(data, "notes", Str("")), Get(data, "transcript", Str("")), now, None,
            Some(Get(data, "meeting_type", Str("live"))))
  }

  /** `save_live_meeting`: records a live session unless it holds nothing worth keeping. */
  method SaveLiveMeeting(store: MeetingCollection, data: Document, now: DateTime) returns (r: Result<string, string>)
    modifies store
    ensures var rejection := LiveSaveRejection(Get(data, "transcript", Str("")), Get(data, "notes", Str("")));
      && (rejection.Some? ==> r == Failure(rejection.value) && store.records == old(store.records))
      && (rejection.None? ==> r == Success(LiveName(now)) && store.records == old(store.records) + [LiveMeeting(data, now)])
  {
    var transcript := Get(data, "transcript", Str(""));
    var notes := Get(data, "notes", Str(""));
    var rejection := LiveSaveRejection(transcript, notes);
    if rejection.Some? {
      r := Failure(rejection.value);
      return;
    }
    store.InsertOne(LiveMeeting(data, now));
    r := Success(LiveName(now));
  }

  /** `update_live_meeting`: checks the payload, then updates the first record with the name. */
  method UpdateLiveMeeting(store: MeetingCollection, data: Document, now: DateTime) returns (r: Result<string, string>)
    modifies store
    ensures var filename, transcript, summary := Get(data, "filename", Null), Get(data, "transcript", Null), Get(data, "summary", Null);
      var rejection := LiveUpdateRejection(filename, transcript, summary);
      && (rejection.Some? ==> r == Failure(rejection.value) && store.records == old(store.records))
      && (rejection.None? ==>
            && store.records == UpdatedByName(old(store.records), filename.s, summary, transcript, Some(now))
            && (r.Success? <==> exists i :: 0 <= i < |old(store.records)| && old(store.records)[i].filename == filename.s)
            && (r.Success? ==> r.value == LiveUpdatedMessage)
            && (r.Failure? ==> r.error == NotFoundMessage))
  {
    var filename := Get(data, "filename", Null);
    var transcript := Get(data, "transcript", Null);
    var summary := Get(data, "summary", Null);
    var rejection := LiveUpdateRejection(filename, transcript, summary);
    if rejection.Some? {
      r := Failure(rejection.value);
      return;
    }
    var matched := store.UpdateOne(filename.s, summary, transcript, Some(now));
    if matched {
      r := Success(LiveUpdatedMessage);
    } else {
      r := Failure(NotFoundMessage);
    }
  }
}
