# Summarize-video Telegram bot: a verified model of its URL handler

The bot takes a YouTube link sent in a chat. It downloads the audio,
transcribes it, asks a language model for an HTML-formatted summary, strips
every tag the chat platform cannot render, and replies with the result. The
downloaded audio file is deleted afterwards. This project models the parts of
`bot.py` that carry their own logic and proves what they promise:

- **The link gate and the identifier extractor** (`youtube_link.dfy`, module
  `YoutubeLink`). The dispatcher's filter accepts a message when its
  lowercased text contains `youtube.com` or `youtu.be`. `re.search` for
  `(?:v=|\/)([a-zA-Z0-9_-]{11})` is modelled twice:
  - `Search` is the specification: the leftmost start position at which the
    pattern matches.
  - `FindVideoId` is the engine's scan as a loop.

  The model proves that the scan computes the specification. It proves that
  the specification is exactly the leftmost match (both directions). It proves
  that the extracted identifier is eleven characters from the class, standing
  right after `v=` or `/`. The pattern has no end anchor, and the model adds
  none.
- **The tag sanitizer** (`sanitizer.dfy`, module `Sanitizer`). The parsed reply
  is a tree of `Text` and `Element` nodes. Each element carries an `id`, which
  stands for object identity. `Soup` is the parsed document that `unwrap`
  mutates in place. `SanitizeDocument` is the source's loop: it takes the
  `find_all(True)` snapshot and unwraps each element whose name is outside
  {b, i, u, a, code, pre, tg-spoiler}. It is proved equal to `Sanitize`, the
  recursive "flatten every disallowed element" specification. About `Sanitize`
  the model proves:
  - the remaining elements are exactly the allowed ones, in their original
    order;
  - the text survives, in order;
  - a document with only allowed tags is left unchanged;
  - running it twice is the same as running it once.
- **The request handler** (`url_handler.dfy`, module `UrlHandler`).
  `CheckForYoutubeUrl` follows the source's branches: the identifier check,
  the notice, the `try` over download, transcribe and summarize, the single
  generic error reply in `except`, and the file removal in `finally`.
  - The three external stages are a `Services` parameter. Each stage returns
    a value or raises. The `Services` value also records whether the platform
    accepted the summary message and whether removing the downloaded file
    succeeds. A removal that raises leaves the handler with that exception,
    after both replies were sent; the handler reports this as `escaped`.
  - The scratch directory is passed in and handed back as a set of paths.

  `HandleMessage` puts the domain gate in front of the handler.

In the model the downloader may leave files in the scratch directory even when
it raises (`Services.written`). The `finally` block removes only the returned
path, and only if that path is non-empty (Python truthiness) and exists.

A reader might expect links of the form `.../watch?v=ID` to yield `ID`. The
code returns the leftmost match instead, and the model follows the code. `AttributionLinkId` shows a watch link where the
extracted "identifier" is the path segment `attribution`. The extracted value
is used only as a gate, because the whole message text goes to the downloader.
So this does not change what the bot does.

## Model

| member | source | states |
|---|---|---|
| `YoutubeLink.SelectsUrlHandler` | bot.py:36 | the filter accepts a message exactly when `youtube.com` or `youtu.be` occurs in it in any letter case |
| `YoutubeLink.GateIgnoresCase` | bot.py:36 | lowercasing the message first never changes the filter's answer |
| `YoutubeLink.ShortLinkPassesGate` | bot.py:36 | `https://youtu.be/dQw4w9WgXcQ` reaches the URL handler |
| `YoutubeLink.MatchAt` | bot.py:39 | at one start position the pattern matches exactly when `v=` or `/` is followed by eleven class characters; the reported match starts there and its group is an eleven-character identifier |
| `YoutubeLink.SearchFrom` | bot.py:39 | tried from a position on, the search reports a match at or after it with no match between, or nothing when no later position matches |
| `YoutubeLink.Search` | bot.py:39 | a reported match is the leftmost one; nothing is reported only when the pattern matches at no position |
| `YoutubeLink.LeftmostIsSearch` | bot.py:39 | conversely, the leftmost match is exactly what the search reports |
| `YoutubeLink.ExtractedIdShape` | bot.py:39 | an extracted identifier has length 11, only characters from `[A-Za-z0-9_-]`, stands right after `v=` or `/`, and no earlier position matches |
| `YoutubeLink.FirstCandidateIsExtracted` | bot.py:39 | an identifier after `/` or `v=` with no match before it is the one extracted, with no end anchor: what follows it does not matter |
| `YoutubeLink.FindVideoId` | bot.py:39 | the position-by-position scan returns the leftmost-match specification's result |
| `YoutubeLink.ShortLinkId` | bot.py:39 | `https://youtu.be/dQw4w9WgXcQ` yields `dQw4w9WgXcQ` |
| `YoutubeLink.AttributionLinkId` | bot.py:39 | a watch link with an eleven-letter path segment before `v=` yields that segment, not the video identifier |
| `Sanitizer.SanitizeKeepsAllowedTags` | bot.py:89-93 | the elements left are exactly the input's allowed elements, in document order: every disallowed one is gone, every allowed one is kept |
| `Sanitizer.SanitizeOnlyAllowed` | bot.py:89-93 | after sanitizing, every element's name is one of the seven allowed tags |
| `Sanitizer.SanitizeKeepsText` | bot.py:91-94 | unwrapping keeps children, so the document's text is unchanged and in order |
| `Sanitizer.SanitizeFixesAllowed` | bot.py:91-93 | a document whose elements are all allowed is left unchanged |
| `Sanitizer.SanitizeIdempotent` | bot.py:88-94 | sanitizing the sanitized document changes nothing |
| `Sanitizer.UnwrapAllTwice` | bot.py:91-93 | unwrapping one set of elements and then another is unwrapping their union, so the loop's unwraps compose |
| `Sanitizer.UnwrapDisallowedIsSanitize` | bot.py:91-93 | unwrapping exactly the elements with disallowed names gives the sanitized document |
| `Sanitizer.Soup.constructor` | bot.py:90 | the soup holds the parsed document |
| `Sanitizer.Soup.FindAll` | bot.py:91 | the snapshot lists every element of the document, at any depth, and nothing else |
| `Sanitizer.Soup.Unwrap` | bot.py:93 | `unwrap` replaces every element with that identity by its children where it stands and changes nothing else; in a parsed document identities are distinct, so that is one element |
| `Sanitizer.SanitizeDocument` | bot.py:88-94 | the loop over the `find_all` snapshot, unwrapping each disallowed element in place, produces the flatten-disallowed specification |
| `Sanitizer.ScriptIsUnwrapped` | bot.py:89-93 | `<script>alert(1)</script><b>ok</b>` becomes the text `alert(1)` followed by the untouched bold element |
| `UrlHandler.CheckForYoutubeUrl` | bot.py:37-57 | no identifier: only "Invalid YouTube URL." and no stage runs. Identifier found: the notice, then either the sanitized summary (every stage succeeded) or the fixed error text. Each stage runs only after the previous one returned, and the downloader gets the whole message. A returned, non-empty path is gone afterwards whatever failed, unless removing the existing file raises: then the file stays and the exception escapes the handler. Without such a path nothing is deleted and nothing escapes. A summary reply carries only allowed tags |
| `UrlHandler.HandleMessage` | bot.py:36-57 | a message the domain filter rejects gets no reply and causes no call; one it accepts gets exactly the handler's outcome |
| `UrlHandler.ShortLinkSucceeds` | bot.py:40-54 | the short link with every stage succeeding: the notice and the sanitized summary, and the audio file is removed |
| `UrlHandler.ShortLinkRemovalFails` | bot.py:40-53 | the short link with every stage succeeding but a removal that raises: both replies are sent, the audio file stays, and the exception escapes |
| `UrlHandler.ShortLinkDownloadFails` | bot.py:40-57 | the short link with a failing download: the notice and the generic error, only the download was called, nothing deleted |

## Left out

- The `/start` greeting (bot.py:32-34) is not modelled. It depends on the chat library's `html.bold`. The dispatcher tries that handler first, so a `/start` command never reaches the URL handler, and that ordering is not modelled either.
- The downloader (bot.py:59-79) is a `Services` parameter. It returns a path or raises, and it may leave files in the scratch directory. Creating `./downloads`, the output template and the yt-dlp options are I/O. Wrapping `DownloadError` into `RuntimeError` only matters in that the handler treats it like every other failure, and the model does that.
- Transcription (bot.py:81-86) is a `Services` parameter. It is an opaque speech-recognition model.
- Language detection, the `uk` rename, the prompt text and the Gemini call (bot.py:96-126) are left out. The model's parsed reply is a `Services` parameter. Sanitizing it (bot.py:127) is modelled.
- HTML parsing and `str(soup)` (bot.py:90, 94) are library behaviour and are not modelled. The sanitizer works on the parsed tree, and the summary reply carries that tree. Parser recovery on malformed markup is not modelled.
- Lowercasing maps only ASCII letters. No other character lowercases to a character of `youtube.com` or `youtu.be`, so the filter's answer is unaffected.
- Messages without text are not modelled. On them, `message.text.lower()` raises inside the filter. In the model a message is always a string.
- UrlHandler.CheckForYoutubeUrl: only the send of the summary (bot.py:47) may fail in the model. A failure of that send leads to the generic error reply. Failures of the notice, error or "Invalid YouTube URL." sends (bot.py:42, 49, 56) are not modelled.
- The unused `asyncio.Semaphore(1)` (bot.py:30), async/await and polling (bot.py:29, 130-135) are not modelled. Environment loading and logging (bot.py:24-27, 50, 54, 57) are not modelled either.
- The scratch directory is shared by concurrent requests. The model removes the returned path even when it already existed before the request, for example a file of another request whose video has the same title. Interleaving of requests is not modelled, so neither is a file deleted by another request between the existence check and the removal (bot.py:52-53).
- UrlHandler.CheckForYoutubeUrl: why a removal raises (a directory, a denied permission) is not modelled; `Services.removable` only says whether it does.
