# Audio download-and-forward script, modelled in Dafny

The script `audio_transcription.py` downloads an audio file from a URL and forwards it to a
webhook as a one-part multipart upload. After a successful upload it may delete the local
copy. This project models the decisions the script makes:

- **Naming the download** (`Filename`, `Disposition`, `Text`). When `--output` is missing or
  empty, the name comes from the first of these that contains a `.`:
  1. the URL path's last `/`-segment;
  2. the group of `filename="?([^"]+)"?` in `Content-Disposition`;
  3. a made-up `audio.<ext>` chosen from `Content-Type`.

  The regex is written out as a function over strings (`Disposition.MatchAt`,
  `SearchFrom`). It is proved equal to a declarative reading of the pattern: the leftmost
  start index, an optional quote, then the longest run of characters other than `"`, which
  must be non-empty.
- **Downloading** (`Download`, `Storage`). A streamed GET fails on no response, on a 4xx/5xx
  status, or when the file cannot be opened. Otherwise the body's chunks are written in order.
  A stream that breaks leaves a partial file and returns no path.
- **The upload gate** (`Upload`). The file must exist, and then its size must be at most the
  limit. A missing or non-audio MIME type only triggers a warning. The part's field name and
  file name are both the base name of the path. Its content type is the guessed type, or
  `audio/mpeg`. Only status 200 counts as success.
- **The run** (`Pipeline`). `Decide` gives the decisions of `main`: the upload outcome if an
  upload happened, whether `os.remove` is called, and the exit code. `Run` carries them out on
  a `Storage.Disk`, a class holding the files as a `map` from path to bytes. A ghost counter
  on the disk counts `os.remove` calls.

The world outside is passed in as parameters:
- the URL's path component (what `urlparse(url).path` returns);
- whether there was an HTTP response, plus its status, headers and body chunks;
- whether `open` succeeds;
- what `mimetypes.guess_type` returns;
- what the POST returns;
- whether `os.remove` raises.

The configuration (`Settings.Config`) is a parameter too. `Settings.DEFAULT` holds the
script's fallback values: 30 s timeout, 50 × 1024 × 1024 bytes, cleanup on.

Python semantics kept explicitly:
- `not output_path` and `if content_disposition:` treat `None` and `""` alike (`Filename.Given`).
- `headers.get('Content-Type', '')` reads an absent header as `""`.
- `sub in s` is substring search (`Text.Contains`, proved equal to "occurs at some index").
- `os.path.basename` is the text after the last `/`.
- `webhook_url is None` tests only for `None`.
- `mime_type or 'audio/mpeg'` also replaces `""`.

Three points where the code does something other than a quick reading suggests; the model follows the code:
- A download fails only for 4xx/5xx statuses (what `raise_for_status` checks), not for every status outside 2xx.
- A caller-supplied output path is used even when it has no `.`. Only derived names are
  guaranteed to contain one.
- An unquoted `filename=` value runs to the next `"` or to the end of the header. So
  `attachment; filename=a.wav; size=1` names the file `a.wav; size=1`
  (`Disposition.UnquotedFilename`).

## Model

| member | source | states |
|---|---|---|
| Text.ContainsIff | audio_transcription.py:61-67 | Python's substring test holds exactly when the substring occurs at some index of the string |
| Text.Basename | audio_transcription.py:45 | the base name has no `/`, is a suffix of the path, and is preceded by `/` unless it is the whole path |
| Text.BasenameUnique | audio_transcription.py:119 | those three facts determine the base name: it is the longest `/`-free suffix |
| Text.BasenameAfterSlash | audio_transcription.py:119 | the base name of `dir/name` is `name` when `name` has no `/` |
| Disposition.FilenameParameter | audio_transcription.py:53-55 | a captured filename is non-empty and contains no `"` |
| Disposition.MatchAtIff | audio_transcription.py:53 | at a given start index, the executable match gives `run` exactly when the pattern's declarative reading (key, optional quote, maximal quote-free non-empty run) does |
| Disposition.FilenameParameterIsLeftmostMatch | audio_transcription.py:53-55 | the search yields `run` exactly when some index starts a match with group `run` and no earlier index starts any match |
| Disposition.FilenameParameterAbsent | audio_transcription.py:53-54 | the search finds nothing exactly when the pattern matches at no index |
| Disposition.QuotedFilename | audio_transcription.py:53-55 | `…filename="name"` after text without `=` yields exactly `name` |
| Disposition.UnquotedFilename | audio_transcription.py:53-55 | `…filename=value` after text without `=` yields the whole quote-free value, up to the end of the header |
| Filename.DispositionName | audio_transcription.py:49-55 | the disposition candidate exists only for a present, non-empty header, is that header's parameter, and has no `"` |
| Filename.ContentTypeName | audio_transcription.py:58-71 | the made-up name starts with `audio.` and contains a `.`; it is `audio.mp3`, `audio.wav` or `audio.m4a` for the first of mp3, wav, m4a in an audio content type, and `audio.audio` exactly when the type has no `audio` or none of them |
| Filename.ResolveOutputPath | audio_transcription.py:42-73 | a non-empty output path is the result unchanged; otherwise the result contains a `.`; the result is never empty |
| Filename.ResolveIsFirstUsable | audio_transcription.py:42-73 | without an output path, the chain of tests yields the first candidate containing a `.` among URL segment, disposition parameter and made-up name, in that order |
| Filename.FirstUsable | audio_transcription.py:48-58 | the chosen candidate is one of the candidates and contains a `.`; there is none exactly when no candidate contains a `.` |
| Filename.OutputPathWins | audio_transcription.py:42-73 | with a non-empty output path, neither the URL nor any header changes the result |
| Filename.UrlNameWins | audio_transcription.py:44-48 | a URL segment with a `.` is the result whatever the headers |
| Filename.DispositionNameWins | audio_transcription.py:48-58 | otherwise a disposition parameter with a `.` is the result whatever the content type |
| Filename.ContentTypeNameLast | audio_transcription.py:58-71 | otherwise the content-type name is the result, an absent header reading as `""` |
| Filename.QuotedDispositionExample | audio_transcription.py:49-58 | a header `<prefix>filename="<name>"`, with no `=` in the prefix and a dotted `name` free of `"`, names the file `name` for any URL without a usable segment and any content type |
| Filename.AttachmentWavExample | audio_transcription.py:49-58 | the literal header `attachment; filename="x.wav"` names the file `x.wav` for any URL without a usable segment and any content type |
| Filename.UrlSegmentExample | audio_transcription.py:44-48 | any URL path ending in `/clip.mp3` names the file `clip.mp3` whatever the headers |
| Filename.Mp3ContentTypeName | audio_transcription.py:60-63 | the content type `audio/mp3` gives the made-up name `audio.mp3` |
| Filename.ContentTypeExample | audio_transcription.py:58-63 | with no other usable name, `Content-Type: audio/mp3` names the file `audio.mp3` |
| Upload.PrepareUpload | audio_transcription.py:97-126 | missing file gives NotFound, present and over the limit gives TooLarge with both sizes, otherwise a request whose part is keyed and named by the base name, typed by the guessed MIME or `audio/mpeg`, sent to the given or configured URL with the configured timeout, with a warning exactly when the MIME is not audio |
| Upload.SendToWebhook | audio_transcription.py:103-147 | success exactly when the file exists, is within the limit and the POST answers 200; refusals carry the gate's reason; after the gate, an answer is recorded with the POST's status and an exception as a crash |
| Upload.DefaultLimitIs50MiB | audio_transcription.py:20-25 | under the default configuration a file of exactly 50 × 1024 × 1024 bytes is accepted, one byte more is refused, and the timeout is 30 s |
| Upload.MissingFileIsNotFound | audio_transcription.py:103-108 | a missing file is refused as not found whatever size would be reported |
| Upload.SizeLimitIsInclusive | audio_transcription.py:108-111 | a file exactly at the limit passes; one byte more is refused with size and limit |
| Upload.RefusalMakesNoRequest | audio_transcription.py:103-134 | on a refusal the outcome does not depend on what a POST would return |
| Upload.MimeTypeNeverBlocks | audio_transcription.py:114-116 | whether the upload goes ahead is the same for every guessed MIME type |
| Upload.OnlyStatus200Succeeds | audio_transcription.py:136-143 | any status other than 200 (201, 204, …) is failure |
| Upload.PartNamedByBasename | audio_transcription.py:119-126 | uploading `dir/name` sends a part whose field name and file name are both `name` |
| Storage.ConcatSnoc | audio_transcription.py:76-79 | writing one more chunk appends its bytes |
| Storage.ConcatPrefix | audio_transcription.py:76-79 | the bytes of the first i+1 chunks are those of the first i followed by chunk i |
| Storage.Disk.Create | audio_transcription.py:76 | opening for writing makes the file present and empty, and changes no other file |
| Storage.Disk.Append | audio_transcription.py:79 | a write extends that file by the data, and changes no other file |
| Storage.Disk.Remove | audio_transcription.py:183-186 | removal deletes the file exactly when it exists and the call does not fail; each call is counted |
| Download.WrittenPath | audio_transcription.py:38-76 | a file is opened exactly when a response without 4xx/5xx status arrived and opening works, and it is the resolved path |
| Download.DownloadResult | audio_transcription.py:34-89 | a path is returned exactly when the file was opened and the stream did not break; it is the written path and never empty |
| Download.FilesAfterDownload | audio_transcription.py:76-79 | without an opened file nothing changes; otherwise the target holds every delivered byte in order and other files are untouched |
| Download.WriteChunks | audio_transcription.py:77-79 | the chunk loop appends every chunk's bytes in order, skipping empty ones, and touches no other file |
| Download.Save | audio_transcription.py:76-79 | opening for writing and the chunk loop leave the file holding exactly the delivered bytes, and no other file changes |
| Download.DownloadAudio | audio_transcription.py:30-89 | returns the download result and leaves the disk as `FilesAfterDownload` describes |
| Pipeline.Decide | audio_transcription.py:172-193 | an upload happens exactly when the download returned a path, and its outcome is `SendToWebhook` on that path, the downloaded size, the `--webhook` URL and the POST's answer; removal is attempted exactly when the upload succeeded, `--keep-file` is off and cleanup is configured; exit 0 exactly on upload success, else 1 |
| Pipeline.Run | audio_transcription.py:171-193 | the run's exit code and final files are those decided, and `os.remove` is called once when removal is decided and never otherwise |
| Pipeline.DownloadFailureStops | audio_transcription.py:172-175 | a failed download gives exit 1, no upload, no removal |
| Pipeline.ExitIgnoresRemoval | audio_transcription.py:181-193 | the exit code is the same whether removal fails or not |
| Pipeline.FileRemovedIff | audio_transcription.py:181-186 | after a download, the file is gone exactly when the run succeeded, `--keep-file` is off, cleanup is configured and removal worked |
| Pipeline.ServerErrorKeepsFile | audio_transcription.py:178-193 | a webhook answering 500 gives exit 1 and the downloaded file stays with its contents |
| Pipeline.SuccessfulRun | audio_transcription.py:178-190 | with cleanup configured and `os.remove` not raising, a file within the limit and a 200 answer give exit 0, and the file stays exactly when `--keep-file` was passed |
| Pipeline.ExitZeroIff | audio_transcription.py:172-193 | exit 0 exactly when the download returned a path, the downloaded bytes are within the limit and the webhook answered 200 |

## Left out

- HTTP itself (`requests.get` streaming, `requests.post`, timeouts, redirects): network I/O. Its results are inputs (`Download.Fetch`, `Upload.PostOutcome`). The timeout is only carried in the modelled request.
- `urlparse`, `mimetypes.guess_type`, `os.path.exists`/`getsize`: library calls. Their results are parameters. Inside `Run`, existence and size are read from the modelled disk.
- The 8192-byte chunk size: it does not affect what is written, so chunks of any length are accepted.
- A stream error is modelled as happening after the delivered chunks. Other exceptions while writing count as `open` failing.
- Opening the file for upload and a transport error on the POST are one outcome (`Raised`): the script treats both as an exception that returns False.
- The file's contents are not sent in the modelled request. Only the part's metadata is modelled.
- All printed diagnostics, including the MB/KB size figures (floating-point formatting).
- Argument parsing and the configuration import fallback, except that the webhook default is already applied in `Pipeline.Args`. `config.py`, `config.js` and `config.example.js` are not part of this model beyond the constants in `Settings.DEFAULT`. The retry count, quality presets and metadata are never read by the script.
- Something else deleting or changing the file between download and upload is not modelled. The upload reads the disk that the download left.
