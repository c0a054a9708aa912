/**
 * The command-line entry point: download, then upload, then (maybe) remove the file, and
 * the exit status. Parsed arguments, the configuration and everything the outside world
 * answers during the run are inputs.
 */
module Pipeline {
  import opened Wrappers
  import opened Settings
  import opened Storage
  import opened Download
  import opened Upload

  /** The parsed command line: the URL's path, `--output`, `--webhook` (already defaulted) and `--keep-file`. */
  datatype Args = Args(urlPath: string, output: Option<string>, webhook: string, keepFile: bool)

  /** What the outside world does during one run. */
  datatype World = World(
    fetch: Fetch,              // the GET
    canOpen: bool,             // whether the download's `open(path, 'wb')` succeeds
    mime: Option<string>,      // `mimetypes.guess_type(path)[0]`
    post: PostOutcome,         // opening the file for reading and the POST
    removeFails: bool)         // whether `os.remove` raises

  /** What one run does: the upload's outcome if it was attempted, whether removal was attempted, the exit code. */
  datatype RunOutcome = RunOutcome(upload: Option<UploadOutcome>, removeAttempted: bool, exitCode: int)

  /** The decisions of `main`. */
  function Decide(args: Args, config: Config, world: World): (r: RunOutcome)
    ensures r.upload.Some? <==> DownloadResult(args.urlPath, args.output, world.fetch, world.canOpen).Some?
    ensures r.upload.None? ==> r == RunOutcome(None, false, 1)
    ensures r.removeAttempted <==> r.upload.Some? && r.upload.value.Succeeded()
                                   && !args.keepFile && config.cleanupAfterUpload
    ensures r.exitCode == 0 <==> r.upload.Some? && r.upload.value.Succeeded()
    ensures r.exitCode == 0 || r.exitCode == 1
    ensures r.upload.Some? ==>
              r.upload.value == SendToWebhook(DownloadResult(args.urlPath, args.output, world.fetch, world.canOpen).value,
                                              Some(args.webhook), config, true, |Concat(world.fetch.chunks)|,
                                              world.mime, world.post)
  {
    match DownloadResult(args.urlPath, args.output, world.fetch, world.canOpen)
    case None => RunOutcome(None, false, 1)
    case Some(path) =>
      var outcome := SendToWebhook(path, Some(args.webhook), config,
                                   true, |Concat(world.fetch.chunks)|, world.mime, world.post);
      var success := outcome.Succeeded();
      RunOutcome(Some(outcome), !args.keepFile && success && config.cleanupAfterUpload,
                 if success then 0 else 1)
  }

  /** The files at the end of the run. */
  function FinalFiles(files: map<string, seq<bv8>>, args: Args, config: Config, world: World): map<string, seq<bv8>> {
    var downloaded := FilesAfterDownload(files, args.urlPath, args.output, world.fetch, world.canOpen);
    match DownloadResult(args.urlPath, args.output, world.fetch, world.canOpen)
    case Some(p) =>
      if Decide(args, config, world).removeAttempted && !world.removeFails then downloaded - {p}
      else downloaded
    case None => downloaded
  }

  /** `main` after argument parsing; the exit code is what `sys.exit` receives. */
  method Run(disk: Disk, args: Args, config: Config, world: World) returns (exitCode: int)
    modifies disk
    ensures exitCode == Decide(args, config, world).exitCode
    ensures disk.files == FinalFiles(old(disk.files), args, config, world)
    ensures disk.removeCalls == old(disk.removeCalls) + (if Decide(args, config, world).removeAttempted then 1 else 0)
  {
    var audioFile := DownloadAudio(disk, args.urlPath, args.output, world.fetch, world.canOpen);
    if audioFile.None? || audioFile.value == "" {
      return 1;
    }
    var path := audioFile.value;
    var present := path in disk.files;
    var size := if present then |disk.files[path]| else 0;
    var outcome := SendToWebhook(path, Some(args.webhook), config, present, size, world.mime, world.post);
    var success := outcome.Succeeded();
    if !args.keepFile && success && config.cleanupAfterUpload {
      var _ := disk.Remove(path, world.removeFails);
    }
    exitCode := if success then 0 else 1;
  }

  // ----- Properties of a run -----

  /** A failed download ends the run with status 1: no upload, no removal, no file but what it wrote. */
  lemma DownloadFailureStops(files: map<string, seq<bv8>>, args: Args, config: Config, world: World)
    requires DownloadResult(args.urlPath, args.output, world.fetch, world.canOpen).None?
    ensures Decide(args, config, world) == RunOutcome(None, false, 1)
    ensures FinalFiles(files, args, config, world)
         == FilesAfterDownload(files, args.urlPath, args.output, world.fetch, world.canOpen)
  {
  }

  /** Exit 0 exactly when the download worked, the file is within the limit and the webhook answered 200. */
  lemma ExitZeroIff(args: Args, config: Config, world: World)
    ensures Decide(args, config, world).exitCode == 0
        <==> && DownloadResult(args.urlPath, args.output, world.fetch, world.canOpen).Some?
             && |Concat(world.fetch.chunks)| <= config.maxFileSize
             && world.post == Responded(200)
  {
  }

  /** The exit code depends on the upload alone: whether removal succeeds never changes it. */
  lemma ExitIgnoresRemoval(args: Args, config: Config, world: World, removeFails: bool)
    ensures Decide(args, config, world).exitCode == Decide(args, config, world.(removeFails := removeFails)).exitCode
  {
  }

  /** The file is gone at the end exactly when the upload succeeded, removal was wanted and it worked. */
  lemma FileRemovedIff(files: map<string, seq<bv8>>, args: Args, config: Config, world: World)
    requires DownloadResult(args.urlPath, args.output, world.fetch, world.canOpen).Some?
    ensures var p := DownloadResult(args.urlPath, args.output, world.fetch, world.canOpen).value;
            var r := Decide(args, config, world);
            (p !in FinalFiles(files, args, config, world))
            <==> (r.exitCode == 0 && !args.keepFile && config.cleanupAfterUpload && !world.removeFails)
  {
  }

  /** A webhook answering 500 fails the run, and the file stays whatever `--keep-file` says. */
  lemma ServerErrorKeepsFile(files: map<string, seq<bv8>>, args: Args, config: Config, world: World)
    requires DownloadResult(args.urlPath, args.output, world.fetch, world.canOpen).Some?
    requires world.post == Responded(500)
    ensures Decide(args, config, world).exitCode == 1
    ensures var p := DownloadResult(args.urlPath, args.output, world.fetch, world.canOpen).value;
            p in FinalFiles(files, args, config, world)
            && FinalFiles(files, args, config, world)[p] == Concat(world.fetch.chunks)
  {
  }

  /**
   * A download within the size limit and a webhook answering 200 give status 0, and the file
   * is absent afterwards unless `--keep-file` was passed (with cleanup configured and removal working).
   */
  lemma SuccessfulRun(files: map<string, seq<bv8>>, args: Args, config: Config, world: World)
    requires DownloadResult(args.urlPath, args.output, world.fetch, world.canOpen).Some?
    requires |Concat(world.fetch.chunks)| <= config.maxFileSize
    requires world.post == Responded(200)
    requires config.cleanupAfterUpload && !world.removeFails
    ensures Decide(args, config, world).exitCode == 0
    ensures var p := DownloadResult(args.urlPath, args.output, world.fetch, world.canOpen).value;
            p in FinalFiles(files, args, config, world) <==> args.keepFile
  {
  }
}
