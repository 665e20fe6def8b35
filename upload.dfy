/** The video upload service: the file-name check `allowed_file` and the guard
    ladders of the two upload routes, `/upload-video` (`upload_ajax`) and
    `/upload-video-error` (`upload_ajax_error`). Saving the file is modelled by
    whether it succeeds; name sanitising, URL building and templates are not
    modelled. */
module VideoUpload {
  import opened Wrappers

  /** The accepted file extensions, lower case, without the dot. */
  const AllowedExtensions: set<string> := {"mp4", "mov", "avi", "wmv", "flv", "webm", "mkv"}

  // ---------------------------------------------------------------------------
  // Lower-casing
  // ---------------------------------------------------------------------------

  /** KELVIN SIGN, the one character outside ASCII whose lower-case form is an
      ASCII letter alone ('k'). */
  const KelvinSign: char := '\U{212A}'

  /** The lower-case form of `c` as far as it can matter for the ASCII-only
      extension set: 'A'..'Z' become 'a'..'z', the Kelvin sign becomes 'k', and
      every other character is kept. Every other lower-case form either has no
      ASCII letter or, for U+0130 (capital I with dot above), is 'i' followed by
      the combining dot U+0307, which is not ASCII and stays in the result; so
      keeping the character cannot change membership in the set. */
  function LowerChar(c: char): char
  {
    if 'A' <= c <= 'Z' then (c as int - 'A' as int + 'a' as int) as char
    else if c == KelvinSign then 'k'
    else c
  }

  /** `s` lower-cased character by character. */
  function Lower(s: string): string
  {
    seq(|s|, i requires 0 <= i < |s| => LowerChar(s[i]))
  }

  /** The upper-case form of an ASCII letter, any other character kept. */
  function UpperChar(c: char): char
  {
    if 'a' <= c <= 'z' then (c as int - 'a' as int + 'A' as int) as char else c
  }

  /** `s` with its ASCII letters upper-cased. */
  function Upper(s: string): string
  {
    seq(|s|, i requires 0 <= i < |s| => UpperChar(s[i]))
  }

  // ---------------------------------------------------------------------------
  // allowed_file
  // ---------------------------------------------------------------------------

  /** The second part of splitting `name` once at its last '.', from the right:
      the text after the last dot. */
  function AfterLastDot(name: string): (ext: string)
    requires '.' in name
    ensures '.' !in ext
    ensures |ext| < |name| && name[|name| - |ext| - 1] == '.'
    ensures name[|name| - |ext|..] == ext
  {
    var n := |name| - 1;
    if name[n] == '.' then ""
    else
      assert '.' in name[..n] by {
        var k :| 0 <= k < |name| && name[k] == '.';
        assert name[..n][k] == '.';
      }
      AfterLastDot(name[..n]) + [name[n]]
  }

  /** There is only one way to split a name at a dot that has no dot after it. */
  lemma LastDotUnique(name: string, k: nat)
    requires k < |name| && name[k] == '.' && '.' !in name[k + 1..]
    ensures AfterLastDot(name) == name[k + 1..]
  {
    var ext := AfterLastDot(name);
    var j := |name| - |ext| - 1;
    assert j == k;
  }

  /** Splitting at the last dot is splitting at a dot with no dot after it. */
  lemma LastDotSplit(name: string, exts: set<string>)
    ensures ('.' in name && Lower(AfterLastDot(name)) in exts) <==>
            exists k :: 0 <= k < |name| && name[k] == '.' && '.' !in name[k + 1..]
                        && Lower(name[k + 1..]) in exts
  {
    if '.' in name && Lower(AfterLastDot(name)) in exts {
      var ext := AfterLastDot(name);
      var k := |name| - |ext| - 1;
      assert name[k + 1..] == ext;
    }
    if exists k :: 0 <= k < |name| && name[k] == '.' && '.' !in name[k + 1..]
                   && Lower(name[k + 1..]) in exts {
      var k :| 0 <= k < |name| && name[k] == '.' && '.' !in name[k + 1..]
               && Lower(name[k + 1..]) in exts;
      LastDotUnique(name, k);
    }
  }

  /** Whether an uploaded file's name is accepted: it has a dot, and the text
      after its last dot, lower-cased, is one of the allowed extensions. */
  predicate AllowedFile(filename: string): (ok: bool)
    ensures ok <==>
            exists k :: 0 <= k < |filename| && filename[k] == '.' && '.' !in filename[k + 1..]
                        && Lower(filename[k + 1..]) in AllowedExtensions
  {
    LastDotSplit(filename, AllowedExtensions);
    '.' in filename && Lower(AfterLastDot(filename)) in AllowedExtensions
  }

  /** A name with no dot is never allowed; in particular the empty name. */
  lemma NoDotNotAllowed(filename: string)
    requires '.' !in filename
    ensures !AllowedFile(filename)
  {
  }

  /** Only the text after the last dot is looked at: whatever comes before,
      dots included, does not matter. */
  lemma {:induction false} OnlyLastExtensionMatters(stem: string, ext: string)
    requires '.' !in ext
    ensures AllowedFile(stem + "." + ext) <==> Lower(ext) in AllowedExtensions
  {
    var name := stem + "." + ext;
    assert name[|stem|] == '.';
    LastDotUnique(name, |stem|);
    assert name[|stem| + 1..] == ext;
  }

  /** Upper-casing keeps every dot where it is and makes no new one. */
  lemma UpperKeepsDots(s: string)
    ensures |Upper(s)| == |s|
    ensures forall i :: 0 <= i < |s| ==> (Upper(s)[i] == '.' <==> s[i] == '.')
    ensures '.' in Upper(s) <==> '.' in s
  {
    if '.' in Upper(s) {
      var i :| 0 <= i < |s| && Upper(s)[i] == '.';
      assert s[i] == '.';
    }
  }

  /** Lower-casing an upper-cased string gives the same as lower-casing the
      original. */
  lemma LowerUpper(s: string)
    ensures Lower(Upper(s)) == Lower(s)
  {
  }

  /** Upper-casing a name's ASCII letters does not change whether it is
      allowed: the check ignores case. */
  lemma AllowedFileIgnoresCase(filename: string)
    ensures AllowedFile(Upper(filename)) <==> AllowedFile(filename)
  {
    var up := Upper(filename);
    UpperKeepsDots(filename);
    if '.' in filename {
      var ext := AfterLastDot(filename);
      var k := |filename| - |ext| - 1;
      assert up[k + 1..] == Upper(ext);
      UpperKeepsDots(ext);
      LastDotUnique(up, k);
      LowerUpper(ext);
    }
  }

  /** Names that pass on their last extension: with a double extension only the
      last part counts, and a name that is only an extension passes. */
  lemma LastExtensionExamples()
    ensures AllowedFile("clip.tar.mp4")
    ensures AllowedFile(".mp4")
  {
    assert Lower("mp4") == "mp4";
    assert AfterLastDot("clip.tar.mp4") == "mp4" by {
      LastDotUnique("clip.tar.mp4", 8);
      assert "clip.tar.mp4"[9..] == "mp4";
    }
    assert AfterLastDot(".mp4") == "mp4" by {
      LastDotUnique(".mp4", 0);
      assert ".mp4"[1..] == "mp4";
    }
  }

  /** Names that pass whatever their case: upper-case letters, and the Kelvin
      sign in place of 'k'. */
  lemma CaseExamples()
    ensures AllowedFile("CLIP.MP4")
    ensures AllowedFile("clip.m" + [KelvinSign] + "v")
  {
    assert Lower("MP4") == "mp4";
    assert AfterLastDot("CLIP.MP4") == "MP4" by {
      LastDotUnique("CLIP.MP4", 4);
      assert "CLIP.MP4"[5..] == "MP4";
    }
    var kelvin := "clip.m" + [KelvinSign] + "v";
    assert Lower("m" + [KelvinSign] + "v") == "mkv";
    assert AfterLastDot(kelvin) == "m" + [KelvinSign] + "v" by {
      LastDotUnique(kelvin, 4);
      assert kelvin[5..] == "m" + [KelvinSign] + "v";
    }
  }

  /** Names that are rejected: an allowed extension followed by another one, a
      trailing dot (an empty extension), and no dot at all. */
  lemma RejectedExamples()
    ensures !AllowedFile("clip.mp4.exe")
    ensures !AllowedFile("clip.")
    ensures !AllowedFile("clip")
  {
    var ext := AfterLastDot("clip.mp4.exe");
    assert ext == "exe" by {
      LastDotUnique("clip.mp4.exe", 8);
      assert "clip.mp4.exe"[9..] == "exe";
    }
    assert Lower(ext) !in AllowedExtensions by {
      assert Lower("exe") == "exe";
    }
    assert Lower(AfterLastDot("clip.")) !in AllowedExtensions by {
      assert AfterLastDot("clip.") == "";
      assert Lower("") == "";
    }
    NoDotNotAllowed("clip");
  }

  // ---------------------------------------------------------------------------
  // The upload routes
  // ---------------------------------------------------------------------------

  /** The `file` part of the multipart request: absent, or present with the
      file name the client sent (empty when no file was chosen). */
  datatype FilePart = Missing | Present(filename: string)

  /** The `message` of the JSON reply. The fixed texts are "No file part",
      "No selected file", "Invalid file type.", "Server error during save." and
      "Simulated server error: something went wrong after upload."; the success
      text names the saved file. */
  datatype Message =
    | NoFilePart
    | NoSelectedFile
    | InvalidFileType
    | Uploaded
    | SaveFailed
    | SimulatedFailure

  /** The HTTP status and the `success` and `message` fields of the JSON reply. */
  datatype Reply = Reply(status: nat, success: bool, message: Message)

  /** The checks both routes make first, in order; `None` when the file passes
      all of them. */
  function Rejection(part: FilePart): (r: Option<Reply>)
    ensures r.Some? ==> r.value.status == 400 && !r.value.success
    ensures r.None? <==> part.Present? && AllowedFile(part.filename)
  {
    match part
    case Missing => Some(Reply(400, false, NoFilePart))
    case Present(filename) =>
      if filename == "" then Some(Reply(400, false, NoSelectedFile))
      else if !AllowedFile(filename) then Some(Reply(400, false, InvalidFileType))
      else None
  }

  /** `upload_ajax`: the checks, then the save, which either succeeds (200) or
      raises (500). */
  function UploadAjax(part: FilePart, saved: bool): (r: Reply)
    ensures r.success <==> r.status == 200
    ensures r.status == 200 <==> part.Present? && AllowedFile(part.filename) && saved
    ensures r.status == 500 <==> part.Present? && AllowedFile(part.filename) && !saved
    ensures r.status == 400 <==> !(part.Present? && AllowedFile(part.filename))
  {
    match Rejection(part)
    case Some(reply) => reply
    case None => if saved then Reply(200, true, Uploaded) else Reply(500, false, SaveFailed)
  }

  /** `upload_ajax_error`: the same checks, then a failure after the save
      whether or not the save itself succeeded. */
  function UploadAjaxError(part: FilePart): (r: Reply)
    ensures !r.success
    ensures r.status == 500 <==> part.Present? && AllowedFile(part.filename)
    ensures r.status == 400 <==> !(part.Present? && AllowedFile(part.filename))
  {
    match Rejection(part)
    case Some(reply) => reply
    case None => Reply(500, false, SimulatedFailure)
  }

  /** The first failing check decides the reply: a missing part before an empty
      name before a disallowed type. */
  lemma FirstFailingCheckWins(part: FilePart, saved: bool)
    ensures part.Missing? ==> UploadAjax(part, saved) == Reply(400, false, NoFilePart)
    ensures part == Present("") ==> UploadAjax(part, saved) == Reply(400, false, NoSelectedFile)
    ensures part.Present? && part.filename != "" && !AllowedFile(part.filename)
            ==> UploadAjax(part, saved) == Reply(400, false, InvalidFileType)
  {
  }

  /** The two routes answer a rejected request identically; they differ only
      once the file is accepted. */
  lemma RoutesAgreeOnRejection(part: FilePart, saved: bool)
    requires !(part.Present? && AllowedFile(part.filename))
    ensures UploadAjaxError(part) == UploadAjax(part, saved)
  {
  }
}
