/** The per-request control flow of the bot's URL handler.

    A message that passes the domain gate is searched for a video identifier.
    Without one the handler answers "Invalid YouTube URL." and stops. With
    one it announces that it is summarizing, then downloads, transcribes and
    summarizes inside one `try`; any failure there produces the single
    generic error reply, and the `finally` block removes the downloaded file
    if the download returned a path and that file exists.

    The three external stages (yt-dlp, Whisper, Gemini), the chat
    platform's acceptance of the summary and the success of the file removal
    are parameters (`Services`); the scratch directory is passed in and
    handed back as a set of paths. A removal that raises in `finally` leaves
    the handler with that exception, after both replies were sent.
 */
module UrlHandler {
  import opened YoutubeLink
  import opened Sanitizer

  const Notice: string := "Summarizing video...\nIt can take a <b>few</b> minutes. Please wait."
  const ProcessingError: string := "An error occurred while processing the video"
  const InvalidUrl: string := "Invalid YouTube URL."

  /** A stage either returns a value or raises. */
  datatype Outcome<T> = Returned(value: T) | Raised

  /** What the outside world does during one request. */
  datatype Services = Services(
    download: Outcome<string>,     // the path of the audio file, or a download failure
    written: set<string>,          // what the downloader left in the scratch directory
    transcribe: Outcome<string>,   // the transcript
    generate: Outcome<seq<Node>>,  // the language model's reply, parsed, before sanitizing
    delivered: bool,               // whether the platform accepted the summary message
    removable: bool)               // whether removing the downloaded file succeeds

  /** A message sent back to the user: plain text, or the sanitized summary. */
  datatype Reply = Plain(text: string) | Summary(doc: seq<Node>)

  /** A call into an external stage, with its argument. */
  datatype Call = Download(url: string) | Transcribe(path: string) | Summarize(transcript: string)

  /** Every step inside the `try` succeeds. */
  predicate Succeeds(env: Services)
  {
    env.download.Returned? && env.transcribe.Returned? && env.generate.Returned? && env.delivered
  }

  /** The download returned a path that Python treats as true (non-empty). */
  predicate HasVideoPath(env: Services)
  {
    env.download.Returned? && env.download.value != ""
  }

  /** What `check_for_youtube_url` does with one message: the replies it
      sends, the external calls it makes, the scratch directory after it
      returns, and whether an exception escapes it. */
  ghost predicate UrlHandlerOutcome(text: string, env: Services, files: set<string>,
                                    replies: seq<Reply>, calls: seq<Call>, filesAfter: set<string>,
                                    escaped: bool)
  {
    // no identifier: one fixed reply, no stage runs, nothing on disk changes
    (Search(text).None? ==>
      replies == [Plain(InvalidUrl)] && calls == [] && filesAfter == files && !escaped) &&
    // an identifier: the notice, then exactly one more reply
    (Search(text).Some? ==>
      |replies| == 2 && replies[0] == Plain(Notice) &&
      replies[1] == if Succeeds(env) then Summary(Sanitize(env.generate.value)) else Plain(ProcessingError)) &&
    // the whole message text goes to the downloader; each stage runs only
    // after the previous one returned, and is fed its result
    (Search(text).Some? && env.download.Raised? ==>
      calls == [Download(text)]) &&
    (Search(text).Some? && env.download.Returned? && env.transcribe.Raised? ==>
      calls == [Download(text), Transcribe(env.download.value)]) &&
    (Search(text).Some? && env.download.Returned? && env.transcribe.Returned? ==>
      calls == [Download(text), Transcribe(env.download.value), Summarize(env.transcribe.value)]) &&
    // cleanup: the downloaded file is gone whether or not the request
    // succeeded, unless removing it raises
    (Search(text).Some? && HasVideoPath(env) &&
     (env.removable || env.download.value !in files + env.written) ==>
      filesAfter == (files + env.written) - {env.download.value} && !escaped) &&
    // a removal that raises leaves the file and escapes the handler
    (Search(text).Some? && HasVideoPath(env) &&
     !env.removable && env.download.value in files + env.written ==>
      filesAfter == files + env.written && escaped) &&
    // without a returned path nothing is deleted
    (Search(text).Some? && !HasVideoPath(env) ==>
      filesAfter == files + env.written && !escaped) &&
    // what reaches the platform carries only the allowed tags
    (forall r :: r in replies && r.Summary? ==> OnlyAllowed(r.doc))
  }

  /** `check_for_youtube_url`. */
  method CheckForYoutubeUrl(text: string, env: Services, files: set<string>)
    returns (replies: seq<Reply>, calls: seq<Call>, filesAfter: set<string>, escaped: bool)
    ensures UrlHandlerOutcome(text, env, files, replies, calls, filesAfter, escaped)
  {
    var url := text;
    var found := FindVideoId(url);
    var videoPath: Option<string> := None;
    replies, calls, filesAfter, escaped := [], [], files, false;
    if found.Some? {
      replies := replies + [Plain(Notice)];
      // try
      var failed := true;
      calls := calls + [Download(url)];
      filesAfter := filesAfter + env.written;
      if env.download.Returned? {
        videoPath := Some(env.download.value);
        calls := calls + [Transcribe(videoPath.value)];
        if env.transcribe.Returned? {
          calls := calls + [Summarize(env.transcribe.value)];
          if env.generate.Returned? {
            var summary := SanitizeDocument(env.generate.value);
            SanitizeOnlyAllowed(env.generate.value);
            if env.delivered {
              replies := replies + [Summary(summary)];
              failed := false;
            }
          }
        }
      }
      // except
      if failed {
        replies := replies + [Plain(ProcessingError)];
      }
      // finally
      if videoPath.Some? && videoPath.value != "" && videoPath.value in filesAfter {
        if env.removable {
          filesAfter := filesAfter - {videoPath.value};
        } else {
          escaped := true;
        }
      }
    } else {
      replies := replies + [Plain(InvalidUrl)];
    }
  }

  /** The dispatcher: the URL handler runs only for messages that pass the
      domain gate; other messages get no reply from it and cause no call. */
  method HandleMessage(text: string, env: Services, files: set<string>)
    returns (replies: seq<Reply>, calls: seq<Call>, filesAfter: set<string>, escaped: bool)
    ensures !SelectsUrlHandler(text) ==>
      replies == [] && calls == [] && filesAfter == files && !escaped
    ensures SelectsUrlHandler(text) ==>
      UrlHandlerOutcome(text, env, files, replies, calls, filesAfter, escaped)
  {
    if SelectsUrlHandler(text) {
      replies, calls, filesAfter, escaped := CheckForYoutubeUrl(text, env, files);
    } else {
      replies, calls, filesAfter, escaped := [], [], files, false;
    }
  }

  /** A short link whose download, transcription and summary all succeed:
      the notice and the sanitized summary are sent and the audio file is
      removed. */
  method ShortLinkSucceeds(path: string, transcript: string, reply: seq<Node>, files: set<string>)
    returns (replies: seq<Reply>, filesAfter: set<string>)
    requires path != ""
    ensures replies == [Plain(Notice), Summary(Sanitize(reply))]
    ensures filesAfter == files - {path}
  {
    var env := Services(Returned(path), {path}, Returned(transcript), Returned(reply), true, true);
    ShortLinkPassesGate();
    ShortLinkId();
    var calls, escaped;
    replies, calls, filesAfter, escaped := HandleMessage(ShortLink, env, files);
  }

  /** The same link when the download fails: the notice and the generic error
      are sent, nothing else runs and nothing is deleted. */
  method ShortLinkDownloadFails(files: set<string>)
    returns (replies: seq<Reply>, calls: seq<Call>, filesAfter: set<string>)
    ensures replies == [Plain(Notice), Plain(ProcessingError)]
    ensures calls == [Download(ShortLink)]
    ensures filesAfter == files
  {
    var env := Services(Raised, {}, Raised, Raised, false, true);
    ShortLinkPassesGate();
    ShortLinkId();
    var escaped;
    replies, calls, filesAfter, escaped := HandleMessage(ShortLink, env, files);
  }

  /** The same link when every stage succeeds but removing the audio file
      raises: both replies are already sent, the file stays, and the
      exception escapes the handler. */
  method ShortLinkRemovalFails(path: string, transcript: string, reply: seq<Node>, files: set<string>)
    returns (replies: seq<Reply>, filesAfter: set<string>, escaped: bool)
    requires path != ""
    ensures replies == [Plain(Notice), Summary(Sanitize(reply))]
    ensures filesAfter == files + {path}
    ensures escaped
  {
    var env := Services(Returned(path), {path}, Returned(transcript), Returned(reply), true, false);
    ShortLinkPassesGate();
    ShortLinkId();
    var calls;
    replies, calls, filesAfter, escaped := HandleMessage(ShortLink, env, files);
  }
}
