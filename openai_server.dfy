/**
 * The handlers of app.py, the older OpenAI-based server: an upload summarised by
 * one model call over the whole transcript, an unguarded live-meeting save, and
 * `update_notes`, which edits whichever record is newest.
 */
module OpenAIServer {
  import opened Wrappers
  import opened Summarizer
  import opened Pipeline
  import opened Timestamps
  import opened Documents
  import opened Store
  import opened Uploads

  const NoFilePartMessage := "No file part"
  const NoSelectedFileMessage := "No selected file"
  const InvalidTypeMessage := "Invalid file type. Only MP3 and WAV are allowed."
  const InvalidJsonMessage := "Invalid or missing JSON."
  const NoMeetingMessage := "No meeting found to update."
  const LiveMeetingName := "Live Meeting"

  /**
   * The user message sent to the chat model; the fixed system message
   * ("You are a professional meeting summarizer.") is part of `Model`.
   */
  function SummaryPrompt(transcript: string): (p: string)
    ensures |p| > |transcript| && p[|p| - |transcript| - 1..] == transcript + "\n"
  {
    var p := "Please summarize the following meeting transcript in a few sentences.\n\nTranscript:\n" + transcript + "\n";
    assert p[|p| - |transcript| - 1..] == transcript + "\n";
    p
  }

  /** Why `upload_file` refuses the request before saving anything, if it does. */
  function UploadRejection(file: Option<Upload>): (r: Option<string>)
    ensures r.None? <==> file.Some? && AllowedFile(file.value.filename)
    ensures r == Some(NoFilePartMessage) <==> file.None?
    ensures r == Some(NoSelectedFileMessage) <==> file.Some? && file.value.filename == ""
  {
    if file.None? then Some(NoFilePartMessage)
    else if file.value.filename == "" then Some(NoSelectedFileMessage)
    else if !AllowedFile(file.value.filename) then Some(InvalidTypeMessage)
    else None
  }

  /** The stored record of a successful upload; app.py sets no meeting type. */
  function UploadRecord(name: string, summary: string, transcript: string, now: DateTime): Meeting
  {
    Meeting(name, Str(summary), Str(transcript), now, None, None)
  }

  /**
   * `upload_file`: the file is checked, saved under its secured name, size-checked,
   * transcribed, summarised by a single model call and recorded; the saved file is
   * removed on every path and the collection changes only on success.
   */
  method UploadFile(store: MeetingCollection, file: Option<Upload>, secureFilename: string -> string, env: Backends, now: DateTime)
    returns (r: Result<(string, string), string>, ghost effects: Effects)
    modifies store
    ensures !effects.stagedExists
    ensures UploadRejection(file).Some? ==>
      r == Failure(UploadRejection(file).value) && store.records == old(store.records) &&
      !effects.staged && !effects.transcribeCalled && effects.asked == []
    ensures UploadRejection(file).None? ==> effects.staged && effects.stagedAs == secureFilename(file.value.filename)
    ensures UploadRejection(file).None? && |file.value.content| > MaxContentLength ==>
      r == Failure(TooLargeMessage) && store.records == old(store.records) && !effects.transcribeCalled
    ensures UploadRejection(file).None? && |file.value.content| <= MaxContentLength ==>
      effects.transcribeCalled &&
      match TranscribeAudio(env, file.value.content)
      case Failure(e) => r == Failure(e) && store.records == old(store.records) && effects.asked == []
      case Success(t) =>
        && effects.asked == [t]
        && match env.model(SummaryPrompt(t))
           case Failure(e) => r == Failure(e) && store.records == old(store.records)
           case Success(s) =>
             r == Success((s, t)) &&
             store.records == old(store.records) + [UploadRecord(secureFilename(file.value.filename), s, t, now)]
  {
    var rejection := UploadRejection(file);
    if rejection.Some? {
      r := Failure(rejection.value);
      effects := Effects("", false, false, false, []);
      return;
    }
    var filename := secureFilename(file.value.filename);
    // file.save(filepath)
    ghost var onDisk := true;
    ghost var transcribeCalled := false;
    ghost var asked: seq<string> := [];
    if |file.value.content| > MaxContentLength {
      r := Failure(TooLargeMessage);
    } else {
      transcribeCalled := true;
      var transcript := TranscribeAudio(env, file.value.content);
      match transcript
      case Failure(e) =>
        r := Failure(e);
      case Success(t) =>
        asked := [t];
        var summary := env.model(SummaryPrompt(t));
        match summary
        case Failure(e) =>
          r := Failure(e);
        case Success(s) =>
          store.InsertOne(UploadRecord(filename, s, t, now));
          r := Success((s, t));
    }
    // os.remove(filepath), on the success path and in the exception handler alike
    onDisk := false;
    effects := Effects(filename, true, onDisk, transcribeCalled, asked);
  }

  /** The stored record of `save_live_meeting`. */
  function LiveRecord(data: Document, now: DateTime): Meeting
  {
    Meeting(LiveMeetingName, Get(data, "notes", Str("")), Get(data, "transcript", Str("")), now, None, None)
  }

  /** `save_live_meeting`: always records exactly one meeting named "Live Meeting". */
  method SaveLiveMeeting(store: MeetingCollection, data: Document, now: DateTime)
    modifies store
    ensures store.records == old(store.records) + [LiveRecord(data, now)]
  {
    store.InsertOne(LiveRecord(data, now));
  }

  /** Nothing in the payload can stop the save: missing fields become empty strings. */
  lemma LiveRecordDefaults(data: Document, now: DateTime)
    ensures LiveRecord(data, now).filename == LiveMeetingName
    ensures "notes" !in data ==> LiveRecord(data, now).summary == Str("")
    ensures "transcript" !in data ==> LiveRecord(data, now).transcript == Str("")
    ensures "notes" in data ==> LiveRecord(data, now).summary == data["notes"]
    ensures "transcript" in data ==> LiveRecord(data, now).transcript == data["transcript"]
  {
  }

  /**
   * `update_notes`: sets summary and transcript (null when absent) on the record
   * `find_one(sort=[('timestamp', -1)])` returns; no `updated_at` is written.
   */
  method UpdateNotes(store: MeetingCollection, body: Option<Document>) returns (r: Result<(), string>)
    modifies store
    ensures (body.None? || body.value == map[]) ==> r == Failure(InvalidJsonMessage) && store.records == old(store.records)
    ensures body.Some? && body.value != map[] && old(store.records) == [] ==>
      r == Failure(NoMeetingMessage) && store.records == old(store.records)
    ensures body.Some? && body.value != map[] && old(store.records) != [] ==>
      var i := LatestIndex(old(store.records)).value;
      && r == Success(())
      && store.records == old(store.records)[i := old(store.records)[i].(summary := Get(body.value, "summary", Null),
                                                                        transcript := Get(body.value, "transcript", Null))]
  {
    if body.None? || body.value == map[] {
      r := Failure(InvalidJsonMessage);
      return;
    }
    var d := body.value;
    var summary := Get(d, "summary", Null);
    var transcript := Get(d, "transcript", Null);
    var latest := LatestIndex(store.records);
    if latest.None? {
      r := Failure(NoMeetingMessage);
      return;
    }
    var matched := store.UpdateOneAt(latest.value, summary, transcript);
    r := Success(());
  }

  /**
   * The record `update_notes` edits has the greatest timestamp, is the first listed by
   * `get_meetings`, and is the only one that changes.
   */
  lemma UpdateNotesEditsNewest(rs: seq<Meeting>, summary: Value, transcript: Value)
    requires rs != []
    ensures var i := LatestIndex(rs).value;
      var after := rs[i := rs[i].(summary := summary, transcript := transcript)];
      && (forall j :: 0 <= j < |rs| ==> Time(rs[j]) <= Time(rs[i]))
      && NewestFirst(rs)[0] == rs[i]
      && (forall j :: 0 <= j < |rs| && j != i ==> after[j] == rs[j])
      && after[i].filename == rs[i].filename && after[i].timestamp == rs[i].timestamp
      && after[i].updatedAt == rs[i].updatedAt && after[i].meetingType == rs[i].meetingType
  {
    NewestFirstHeadIsLatest(rs);
  }
}
