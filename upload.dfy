/**
 * The uploader: the checks made before any network call, the single multipart part it
 * sends, and how the webhook's answer becomes success or failure. What the filesystem,
 * `mimetypes.guess_type` and the POST report are inputs.
 */
module Upload {
  import opened Wrappers
  import opened Text
  import opened Settings

  /** One multipart form part: its field name, the file name it carries and its content type. */
  datatype Part = Part(field: string, filename: string, contentType: string)

  /** The POST that would be sent: endpoint, the only part, and the timeout in seconds. */
  datatype Request = Request(url: string, part: Part, timeout: nat)

  /** Why the upload stops before any request is made. */
  datatype Rejection = NotFound | TooLarge(size: nat, limit: nat)

  /** An accepted upload: the request, and whether the "may not be an audio file" warning is printed. */
  datatype Plan = Plan(request: Request, mimeWarning: bool)

  /** What the attempt to open the file and POST it gave: an HTTP status, or an exception. */
  datatype PostOutcome = Responded(status: int) | Raised

  /** The upload's end result, by kind. */
  datatype UploadOutcome = Refused(reason: Rejection) | Answered(status: int) | Crashed {
    /** `send_to_webhook` returns True exactly for an answer with status 200. */
    predicate Succeeded() {
      Answered? && status == 200
    }
  }

  const FALLBACK_CONTENT_TYPE := "audio/mpeg"

  /** The guessed type is present and starts with `audio/`. */
  predicate LooksLikeAudio(mime: Option<string>) {
    mime.Some? && StartsWith(mime.value, "audio/")
  }

  /** `mime_type or 'audio/mpeg'`. */
  function PartContentType(mime: Option<string>): string {
    if mime.Some? && mime.value != "" then mime.value else FALLBACK_CONTENT_TYPE
  }

  /**
   * The checks of `send_to_webhook` up to the POST: the file must exist, then its size must
   * not exceed the limit; the MIME type only decides a warning and the part's content type.
   * `size` is only looked at when `present` holds (the file exists), as `getsize` is only called then.
   */
  function PrepareUpload(path: string, webhookUrl: Option<string>, config: Config,
                         present: bool, size: nat, mime: Option<string>): (r: Result<Plan, Rejection>)
    ensures r == Failure(NotFound) <==> !present
    ensures r == Failure(TooLarge(size, config.maxFileSize)) <==> present && size > config.maxFileSize
    ensures r.Success? <==> present && size <= config.maxFileSize
    ensures r.Success? ==>
              && r.value.request.part.field == Basename(path)
              && r.value.request.part.filename == Basename(path)
              && r.value.request.part.contentType == PartContentType(mime)
              && r.value.request.url == webhookUrl.GetOr(config.webhookUrl)
              && r.value.request.timeout == config.timeout
              && r.value.mimeWarning == !LooksLikeAudio(mime)
  {
    var url := if webhookUrl.None? then config.webhookUrl else webhookUrl.value;
    if !present then Failure(NotFound)
    else if size > config.maxFileSize then Failure(TooLarge(size, config.maxFileSize))
    else
      var filename := Basename(path);
      Success(Plan(Request(url, Part(filename, filename, PartContentType(mime)), config.timeout),
                   !LooksLikeAudio(mime)))
  }

  /** `send_to_webhook`: the checks, then the answer of the POST if one is made. */
  function SendToWebhook(path: string, webhookUrl: Option<string>, config: Config,
                         present: bool, size: nat, mime: Option<string>, post: PostOutcome): (outcome: UploadOutcome)
    ensures outcome.Succeeded() <==> present && size <= config.maxFileSize && post == Responded(200)
    ensures outcome.Refused? <==> PrepareUpload(path, webhookUrl, config, present, size, mime).Failure?
    ensures outcome.Refused? ==> outcome.reason == PrepareUpload(path, webhookUrl, config, present, size, mime).error
    ensures outcome.Answered? ==> post == Responded(outcome.status)
    ensures (PrepareUpload(path, webhookUrl, config, present, size, mime).Success? && post.Responded?)
            ==> outcome == Answered(post.status)
    ensures (PrepareUpload(path, webhookUrl, config, present, size, mime).Success? && post.Raised?)
            ==> outcome == Crashed
  {
    match PrepareUpload(path, webhookUrl, config, present, size, mime)
    case Failure(reason) => Refused(reason)
    case Success(_) =>
      match post
      case Responded(status) => Answered(status)
      case Raised => Crashed
  }

  // ----- Properties of the gate -----

  /** A missing file is refused as not found whatever size would be reported: existence is tested first. */
  lemma MissingFileIsNotFound(path: string, webhookUrl: Option<string>, config: Config,
                              size: nat, mime: Option<string>, post: PostOutcome)
    ensures SendToWebhook(path, webhookUrl, config, false, size, mime, post) == Refused(NotFound)
  {
  }

  /** A file exactly at the limit is accepted; one byte more is refused with both sizes reported. */
  lemma SizeLimitIsInclusive(path: string, webhookUrl: Option<string>, config: Config, mime: Option<string>)
    ensures PrepareUpload(path, webhookUrl, config, true, config.maxFileSize, mime).Success?
    ensures PrepareUpload(path, webhookUrl, config, true, config.maxFileSize + 1, mime)
         == Failure(TooLarge(config.maxFileSize + 1, config.maxFileSize))
  {
  }

  /** On a refusal no request is made: the outcome does not depend on what a POST would give. */
  lemma RefusalMakesNoRequest(path: string, webhookUrl: Option<string>, config: Config,
                             present: bool, size: nat, mime: Option<string>, post: PostOutcome, post': PostOutcome)
    requires PrepareUpload(path, webhookUrl, config, present, size, mime).Failure?
    ensures SendToWebhook(path, webhookUrl, config, present, size, mime, post)
         == SendToWebhook(path, webhookUrl, config, present, size, mime, post')
  {
  }

  /** Whether the upload goes ahead does not depend on the MIME type, audio or not. */
  lemma MimeTypeNeverBlocks(path: string, webhookUrl: Option<string>, config: Config,
                            present: bool, size: nat, mime: Option<string>, mime': Option<string>)
    ensures PrepareUpload(path, webhookUrl, config, present, size, mime).Success?
        <==> PrepareUpload(path, webhookUrl, config, present, size, mime').Success?
  {
  }

  /** Only 200 is success: 201, 204 or any other status reads as failure. */
  lemma OnlyStatus200Succeeds(path: string, webhookUrl: Option<string>, config: Config,
                              present: bool, size: nat, mime: Option<string>, status: int)
    requires status != 200
    ensures !SendToWebhook(path, webhookUrl, config, present, size, mime, Responded(status)).Succeeded()
  {
  }

  /** The part is keyed and named by the base name of the path, e.g. `/tmp/clip.mp3` gives `clip.mp3`. */
  lemma PartNamedByBasename(dir: string, name: string, webhookUrl: Option<string>, config: Config,
                            size: nat, mime: Option<string>)
    requires '/' !in name && size <= config.maxFileSize
    ensures var r := PrepareUpload(dir + "/" + name, webhookUrl, config, true, size, mime);
            r.Success? && r.value.request.part.field == r.value.request.part.filename == name
  {
    BasenameAfterSlash(dir, name);
  }

  /** With the default configuration a file of exactly 50 MiB is accepted and one byte more is refused. */
  lemma DefaultLimitIs50MiB(path: string, mime: Option<string>)
    ensures PrepareUpload(path, None, DEFAULT, true, 52428800, mime).Success?
    ensures PrepareUpload(path, None, DEFAULT, true, 52428801, mime) == Failure(TooLarge(52428801, 52428800))
    ensures PrepareUpload(path, None, DEFAULT, true, 52428800, mime).value.request.timeout == 30
  {
  }
}
