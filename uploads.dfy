/**
 * What both servers check about an uploaded file before staging it:
 * `allowed_file` (an extension test on the client's file name) and the size cap.
 */
module Uploads {
  import opened Wrappers
  import opened Text


  /** A file part of a multipart request: the client's file name and the bytes sent. */
  datatype Upload = Upload(filename: string, content: seq<bv8>)

  /** `Config.MAX_CONTENT_LENGTH`, 16 MiB. */
  const MaxContentLength := 16 * 1024 * 1024
  const TooLargeMessage := "File is too large. Maximum size is 16MB."

  /** `Config.ALLOWED_EXTENSIONS`. */
  const AllowedExtensions: set<string> := {"mp3", "wav"}

  /** The position of the last '.' in `s`, if there is one. */
  function LastDot(s: string): (r: Option<nat>)
    ensures r.None? ==> forall i :: 0 <= i < |s| ==> s[i] != '.'
    ensures r.Some? ==> (r.value < |s| && s[r.value] == '.' &&
      forall i :: r.value < i < |s| ==> s[i] != '.')
    decreases |s|
  {
    if s == [] then None
    else if s[|s| - 1] == '.' then Some(|s| - 1)
    else LastDot(s[..|s| - 1])
  }

  /** `'.' in filename and filename.rsplit('.', 1)[1].lower() in ALLOWED_EXTENSIONS`. */
  predicate AllowedFile(filename: string)
  {
    match LastDot(filename)
    case None => false
    case Some(i) => Lower(filename[i + 1..]) in AllowedExtensions
  }

  /**
   * A name is allowed exactly when it ends in a dot followed by three characters
   * that lower-case to "mp3" or "wav"; so "talk.MP3" is allowed and "mp3", "a.mp3.txt" are not.
   */
  lemma AllowedFileIff(filename: string)
    ensures AllowedFile(filename) <==>
      |filename| >= 4 && filename[|filename| - 4] == '.' && Lower(filename[|filename| - 3..]) in AllowedExtensions
  {
    var n := |filename|;
    if AllowedFile(filename) {
      var i := LastDot(filename).value;
      var ext := Lower(filename[i + 1..]);
      assert ext == "mp3" || ext == "wav";
      assert |ext| == 3;
      assert i == n - 4;
      assert filename[i + 1..] == filename[n - 3..];
    }
    if n >= 4 && filename[n - 4] == '.' && Lower(filename[n - 3..]) in AllowedExtensions {
      var ext := Lower(filename[n - 3..]);
      assert ext == "mp3" || ext == "wav";
      forall i | n - 4 < i < n ensures filename[i] != '.' {
        assert ext[i - (n - 3)] == LowerChar(filename[i]);
      }
      assert LastDot(filename) == Some(n - 4) by {
        LastDotIsLast(filename, n - 4);
      }
    }
  }

  /** A dot with no dot after it is the last dot. */
  lemma {:induction false} LastDotIsLast(s: string, k: nat)
    requires k < |s| && s[k] == '.' && forall i :: k < i < |s| ==> s[i] != '.'
    ensures LastDot(s) == Some(k)
    decreases |s|
  {
    if k < |s| - 1 {
      LastDotIsLast(s[..|s| - 1], k);
    }
  }

  /** The test ignores the case of the whole name. */
  lemma AllowedFileIgnoresCase(filename: string)
    ensures AllowedFile(Lower(filename)) <==> AllowedFile(filename)
  {
    var low := Lower(filename);
    var n := |filename|;
    AllowedFileIff(filename);
    AllowedFileIff(low);
    if n >= 4 {
      assert Lower(low[n - 3..]) == Lower(filename[n - 3..]);
    }
  }
}
