# NotesGen meeting-notes servers, modelled in Dafny

NotesGen records or uploads meeting audio, transcribes it with Whisper,
summarises the transcript with a language model, and keeps the meetings in a
MongoDB collection. Two Flask servers do this:

- `test.py` is the Gemini-based server. It splits the transcript into
  sentence chunks of about 3000 characters and summarises each one.
- `app.py` is the older OpenAI-based server. It summarises the whole
  transcript in one call.

This project models what both servers decide:

- the sentence chunker and the per-chunk summary loop;
- the audio-processing pipeline with its temporary file;
- the upload-name and size guards;
- the guards of the save and update handlers and the names they generate;
- the meetings collection: insert, update by name, update of the newest
  record, and the newest-first listing.

Modules, one file each:

| module | file | what it holds |
|---|---|---|
| `Wrappers` | `wrappers.dfy` | `Option`, `Result` |
| `Text` | `text.dfy` | Python's `str.strip`, `str.split('. ')`, `' '.join`, `in` on strings, and `str.lower` |
| `Chunker` | `chunker.dfy` | `split_into_chunks`: the loop as a method, and the fold that specifies it |
| `Summarizer` | `summarizer.dfy` | `summarize_meeting`: one model call per chunk, replies joined by a space |
| `Pipeline` | `pipeline.dfy` | `transcribe_audio` and `process_audio_file` |
| `Timestamps` | `timestamps.dfy` | `datetime` values, their order, and the `strftime` layouts |
| `Documents` | `documents.dfy` | JSON bodies and payloads: `null` or strings, `dict.get`, truthiness |
| `Store` | `store.dfy` | the `meetings` collection as a class over a sequence of records |
| `Uploads` | `uploads.dfy` | `allowed_file` and the size cap |
| `GeminiServer` | `gemini_server.dfy` | the handlers of `test.py` |
| `OpenAIServer` | `openai_server.dfy` | the handlers of `app.py` |

External services are parameters:

- The transcriber is a function from bytes to a transcript or an error. Whether
  ffmpeg is on the PATH is a boolean.
- The summarisation model is a function from prompt to reply or error.
- The clock reading is the `DateTime` parameter `now`.
- `secure_filename` is a function parameter.

The temporary and uploaded files are a ghost "still on disk" flag, returned in
an `Effects` record. That record also holds whether `transcribe_audio` was
called and which chunks the model was asked about.

Quirks of the code that the model keeps:

- **Chunks can reach the budget.** `split_into_chunks` compares
  `len(chunk + sentence)` with the budget before appending `". "`. A chunk can
  therefore be exactly `max_tokens` long (`Chunker.BoundIsReached`).
- **Empty input gives one chunk.** Empty text gives `["."]`.
- **A long first sentence adds an empty chunk.** A first sentence as long as
  the budget produces a leading empty chunk `""`, which is still sent to the
  model.
- **Uploads have no no-speech check.** The upload handler of `test.py`
  summarises a blank transcript instead of answering with the no-speech
  message that `process_audio_file` uses.

The model keeps all four.

## Model

| member | source | states |
|---|---|---|
| Text.LStripMeaning | test.py:58 | what `str.strip` removes from the front: the result is a suffix of the input, every removed character is Python whitespace, and the result is empty or starts with non-whitespace |
| Text.RStripMeaning | test.py:58 | what `str.strip` removes from the back: the result is a prefix, every removed character is whitespace, and the result is empty or ends with non-whitespace |
| Text.BlankIffAllSpace | test.py:90 | `not transcript.strip()` holds exactly when every character is whitespace |
| Text.SplitSentencesPieces | test.py:52 | no piece of `text.split('. ')` contains ". ", and the first piece is a prefix of the text |
| Text.SplitSentencesWhole | test.py:52 | `split('. ')` returns the text as its only piece exactly when the text has no ". " |
| Text.SplitSentencesRejoin | test.py:52 | joining the pieces of `split('. ')` with `". "` gives back the text |
| Text.SquashMeaning | test.py:58 | the whitespace-free view of a string keeps exactly its non-whitespace characters |
| Text.SquashStrip | test.py:58 | `str.strip` removes only whitespace: the non-whitespace characters are unchanged |
| Text.JoinSnoc | test.py:72 | `sep.join` of a list with one more element appends the separator and that element |
| Text.ContainsIff | test.py:79 | the substring test used on the format hint holds exactly when the needle occurs at some index |
| Text.LowerIdempotent | test.py:43 | `str.lower` leaves no upper-case letter, so lower-casing twice is lower-casing once |
| Chunker.SplitIntoChunks | test.py:51-62 | the loop builds exactly the chunks of the fold `Chunks`: its invariant ties the accumulator to the fold over the sentences seen so far |
| Chunker.ChunksNotEmpty | test.py:52-62 | at least one chunk is always returned |
| Chunker.EmptyTextChunk | test.py:52-61 | empty text yields exactly `["."]` |
| Chunker.OneSentence | test.py:55-61 | one short sentence with no leading whitespace comes back as itself plus "." |
| Chunker.RunPrefix | test.py:54-59 | chunks closed early in the loop stay in place, in order |
| Chunker.OnlyFirstChunkCanBeEmpty | test.py:55-61 | a chunk is empty exactly when it is the first and the first sentence reaches the budget |
| Chunker.ChunksBounded | test.py:55-61 | if every sentence is shorter than the budget, every chunk is non-empty and at most the budget long |
| Chunker.BoundIsReached | test.py:55-61 | a text without ". " that does not start with whitespace and is one character shorter than the budget comes back as one chunk, itself plus ".", exactly as long as the budget |
| Chunker.LongSentenceKeptWhole | test.py:55-59 | a sentence reaching the budget starts a chunk of its own: the whole sentence with ". " appended and then stripped |
| Chunker.LongSentenceInChunks | test.py:55-61 | a sentence reaching the budget appears among the chunks, stripped of leading whitespace, with "." appended |
| Chunker.LongFirstSentence | test.py:55-59 | a first sentence reaching the budget gives the chunks `""` and then that sentence with "." |
| Chunker.RunRejoins | test.py:54-59 | for tidy sentences (the first shorter than the budget, none starting with whitespace), the loop's chunks joined with " ", followed by the open chunk, are the sentences read so far |
| Chunker.ChunksRejoin | test.py:52-61 | when the first sentence is shorter than the budget and no sentence starts with whitespace, the chunks joined by " " are exactly the text followed by "." |
| Chunker.LeadingSpaceDropped | test.py:58-61 | a chunk loses the whitespace its first sentence starts with: " Hi" gives the single chunk "Hi." |
| Chunker.ChunksKeepOrder | test.py:51-62 | for every text and budget, the chunks joined by " " hold the text's non-whitespace characters in order, followed by ".": no sentence is lost, duplicated or reordered |
| Summarizer.RepliesMeaning | test.py:68-72 | the replies succeed exactly when every chunk's call succeeds, and then hold each call's text in chunk order; otherwise they carry the error of the first failing call |
| Summarizer.AskEach | test.py:69-71 | the loop over the chunks computes exactly the replies; on success every chunk was asked, in order; on failure the chunks asked are a prefix ending at the failing one |
| Summarizer.RepliesFailureSticks | test.py:69-75 | once a call fails, later chunks change nothing: the first failure propagates |
| Summarizer.SummarizeMeeting | test.py:64-75 | the loop's result is the joined replies or the first failure; on success every chunk was asked about once, in order; on failure the chunks asked are a prefix of the chunks ending at the failing one |
| Summarizer.SummaryAlwaysAsks | test.py:67-72 | the model is asked at least once: success means the first chunk's call succeeded, failure names a failing chunk |
| Pipeline.FileExtensionIsFirstHint | test.py:79 | the temporary file's suffix is the first of webm, wav, mp4, m4a found in the hint, and ".webm" when none is |
| Pipeline.ProcessAudioFile | test.py:77-98 | the temporary file is removed on every path; under 500 bytes gives ("", "Audio too short to process") untranscribed; a blank transcript gives the no-speech message with no model call; otherwise the transcript paired with its summary, at least one chunk asked |
| Timestamps.InstantOrder | test.py:129 | the numeric instant orders valid timestamps exactly as `datetime` comparison does, and equal instants are equal timestamps |
| Timestamps.Digits | test.py:232 | zero-padded fields have exactly their width and only decimal digits |
| Timestamps.DigitsRoundTrip | test.py:232 | reading a padded field back gives the number |
| Timestamps.StampRoundTrip | test.py:232 | `%Y%m%d_%H%M%S` can be read back to the timestamp's date and time to the second |
| Timestamps.StampIdentifiesSecond | test.py:232 | two timestamps get the same stamp exactly when they agree to the second |
| Timestamps.DateTextRoundTrip | test.py:162 | `%Y-%m-%d %H:%M:%S` can be read back to the timestamp's date and time to the second |
| Store.FirstNamed | test.py:156 | the first record with the name, none before it having that name; none only when no record has it |
| Store.LatestIndex | app.py:168 | the record `find_one(sort=[('timestamp', -1)])` picks: none only for an empty collection, its timestamp is the greatest, and it is the first such |
| Store.UpdateChangesAtMostOne | test.py:190-199 | an update by filename keeps every name and timestamp, changes at most one record, only one with that name, and nothing when no record has it |
| Store.UpdateIdempotent | test.py:350-359 | repeating the same update by filename changes nothing further |
| Store.InsertNewestSorted | test.py:145 | inserting into a newest-first list keeps it newest first |
| Store.NewestFirstPermutes | test.py:144-145 | the newest-first listing holds every record exactly once |
| Store.NewestFirstSortedStable | test.py:145 | the listing is ordered newest first, and records with equal timestamps keep their stored order, as Python's stable sort does |
| Store.NewestFirstHeadIsLatest | app.py:168 | the first record listed is the one the latest-record lookup picks |
| Store.MeetingCollection.InsertOne | test.py:125-131 | `insert_one` appends one record and changes nothing else |
| Store.MeetingCollection.UpdateOne | test.py:190-202 | `update_one` by filename matches exactly when a record has the name, and leaves the collection as the update-by-name function says |
| Store.MeetingCollection.UpdateOneAt | app.py:171 | `update_one` by `_id` sets summary and transcript on that record only |
| Store.MeetingCollection.FindOne | test.py:156-158 | finds a record exactly when one has the name, and returns the first such |
| Store.GetMeetings | test.py:142-146 | every record exactly once, newest first, equal timestamps in stored order |
| Uploads.LastDot | test.py:43 | where `rsplit('.', 1)` splits: the last dot, or none when there is no dot |
| Uploads.AllowedFileIff | app.py:36-38 | a name is allowed exactly when it ends in a dot and three characters that lower-case to "mp3" or "wav" |
| Uploads.AllowedFileIgnoresCase | test.py:42-43 | lower-casing the name does not change the verdict |
| GeminiServer.LiveName | test.py:283 | live meeting names are "Live_Meeting_" followed by a 15-character stamp |
| GeminiServer.RecordedName | test.py:232 | recorded meeting names are "Recorded_Meeting_" followed by a 15-character stamp |
| GeminiServer.GeneratedNames | test.py:232 | a live and a recorded name never clash, and names of one kind clash exactly when saved in the same second |
| GeminiServer.UploadRejection | test.py:107-111 | no file part is refused with "No file part"; the upload passes exactly when the name is allowed, an empty name is never allowed |
| GeminiServer.UploadFile | test.py:105-140 | refused files are neither saved nor transcribed; oversized files are removed untranscribed; otherwise transcribe then summarise with no blank check; one "upload" record is inserted only on success; the saved file is gone on every path |
| GeminiServer.GetMeeting | test.py:175-181 | the first record with the name, or "Meeting not found" exactly when none has it |
| GeminiServer.TranscriptBodyLayout | test.py:160-169 | the download text is, in order: the title and filename lines, "Date: " and the timestamp text, the SUMMARY heading and the summary, the TRANSCRIPT heading and the transcript, and a final newline |
| GeminiServer.DownloadTranscript | test.py:154-173 | the body of the first record with the name and the attachment name, or "Meeting not found" exactly when none has it |
| GeminiServer.UpdateRejection | test.py:187-188 | the body is accepted exactly when it is present and has both summary and transcript |
| GeminiServer.UpdateMeeting | test.py:183-208 | a refused body leaves the store unchanged; otherwise summary, transcript and `updated_at` are set on the first record with the name, and "Meeting not found" exactly when none has it |
| GeminiServer.SaveRejection | test.py:229-230 | a recording is accepted exactly when transcript and summary are both non-empty strings |
| GeminiServer.SaveMeeting | test.py:222-244 | a missing body fails; a refused one leaves the store unchanged; otherwise exactly one record named "Recorded_Meeting_" plus stamp is inserted, meeting type defaulting to "recorded" |
| GeminiServer.LiveSaveRejection | test.py:274-280 | accepted exactly when the transcript strips to at least 10 characters, or is empty with non-empty notes; which message each refusal gives |
| GeminiServer.ShortTranscriptRefused | test.py:278-280 | a short or whitespace-only non-empty transcript is refused even with notes |
| GeminiServer.SaveLiveMeeting | test.py:268-300 | a refusal leaves the store unchanged; otherwise exactly one record named "Live_Meeting_" plus stamp is inserted, meeting type defaulting to "live" |
| GeminiServer.LiveUpdateRejection | test.py:338-344 | the payload passes exactly when the filename is a non-empty string and transcript and summary are not null; a missing filename is reported first |
| GeminiServer.UpdateLiveMeeting | test.py:330-366 | refusals leave the store unchanged; otherwise transcript, summary and `updated_at` are set on the first record with the name, and "Meeting not found" exactly when none has it |
| OpenAIServer.SummaryPrompt | app.py:50 | the prompt ends with the whole transcript and a newline |
| OpenAIServer.UploadRejection | app.py:72-78 | "No file part" exactly when no file was sent, "No selected file" exactly for an empty name, and the upload passes exactly when the name is allowed |
| OpenAIServer.UploadFile | app.py:70-106 | refused files are neither saved nor transcribed; oversized files are removed untranscribed; otherwise one model call on the whole transcript; one record with no meeting type is inserted only on success; the saved file is gone on every path |
| OpenAIServer.SaveLiveMeeting | app.py:146-158 | always inserts exactly one record and nothing else |
| OpenAIServer.LiveRecordDefaults | app.py:150-155 | that record is named "Live Meeting", and missing notes or transcript become "" |
| OpenAIServer.UpdateNotes | app.py:160-172 | a missing or empty body, or an empty store, changes nothing and is reported; otherwise only the latest record's summary and transcript are set, null when absent |
| OpenAIServer.UpdateNotesEditsNewest | app.py:168-171 | the edited record has the greatest timestamp and heads the newest-first listing; no other record and no other field changes |

`meetings_history` (test.py:148-152, app.py:114-118) and `get_meetings` in
app.py (app.py:108-112) list the records exactly as `get_meetings` in test.py
does, so `Store.GetMeetings` models all four.

## Left out

- Flask routing, HTTP status codes, template rendering, Socket.IO `emit` and eventlet are framework plumbing. Handlers return a `Result` whose failure is the error message sent back.
- `handle_audio_chunk` and `handle_complete_audio_transcription` (test.py:247-328, app.py:124-144) are left out. They only base64-decode the payload, call the modelled pipeline or transcriber and summariser, and emit the result.
- Whisper, Gemini and OpenAI are function parameters. Each is assumed to answer the same input the same way. The OpenAI call's fixed system message, temperature and token cap are part of the model function, and a reply whose content is `None` is not modelled.
- MongoDB is a sequence of records. `_id` generation and projections are not modelled; a record's position stands for its `_id`. The driver's own failures are not modelled.
- `find_one(sort=[('timestamp', -1)])` can pick any record among several with the same newest timestamp. The model picks the first one stored.
- `find({})` (test.py:144, app.py:110) has no guaranteed order in MongoDB. The model assumes insertion order. The tie-break in `Store.NewestFirstSortedStable` and the "first" record of `Store.FirstNamed` depend on that assumption.
- MongoDB stores datetimes to the millisecond, so timestamps read back are truncated. The model keeps microseconds. Records saved within the same millisecond tie in the real store but can be ordered in the model.
- Each handler runs atomically in the model. Under eventlet, another request can run between `find_one` (app.py:168) and `update_one` (app.py:171). `OpenAIServer.UpdateNotesEditsNewest` holds only without such interleaving.
- Timestamps are not required to be valid `datetime` values in the handlers or the store, though `datetime.utcnow()` always gives one. The store orders records by `Timestamps.Instant`, which agrees with `datetime` order on valid timestamps (`Timestamps.InstantOrder`). The stamp lemmas take validity as a precondition.
- JSON values are `null` or strings. Numbers, lists and objects in a request body are not modelled, nor are bodies that are not objects. A body that fails to parse is treated as missing.
- `secure_filename` is an uninterpreted parameter. Whether a sanitised name of "" makes the save fail is not modelled.
- Flask's own request-size limit, which can refuse a request before the handler runs, is not modelled. Only the handler's own size check is.
- Text.Lower: lower-cases ASCII letters only. This is exact for the comparison with "mp3" and "wav", because no other character lower-cases to one of the letters m, p, w, a or v.
- Chunker.ChunksRejoin: exact only for tidy sentences. A long first sentence adds the empty chunk, and stripping a chunk drops the whitespace a sentence starts with (`Chunker.LeadingSpaceDropped`: `Chunks(" Hi", 3000) == ["Hi."]`). `Chunker.ChunksKeepOrder` states what holds for every input.
- Timestamps.Stamp: writes the year as four zero-padded digits. glibc's `%Y` does not pad years below 1000.
- GeminiServer.TranscriptBody: the "N/A" date branch is not modelled, because every stored record has a timestamp, which is always truthy.
- GeminiServer.SaveMeeting: the 500 reply for a missing body is modelled with Python's fixed error text. Other exceptions raised inside the handler are not modelled.
- `config.py` and `jk.py` only load environment variables. Their constants (the 16 MiB cap and the extension set) are modelled in `Uploads`.
- `test_live_functionality.py` is a smoke test against a running server and is not part of this model.
