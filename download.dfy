/**
 * The downloader: a streamed GET whose response headers name the file, and whose body is
 * written chunk by chunk. The network is an input: either no response at all, or a status,
 * the two headers, the chunks delivered and whether the stream broke after them.
 */
module Download {
  import opened Wrappers
  import opened Filename
  import opened Storage

  datatype Fetch =
    | Unreachable
    | Response(status: int, headers: Headers, chunks: seq<seq<bv8>>, interrupted: bool)

  /** `raise_for_status` raises for client and server errors, 4xx and 5xx. */
  predicate IsHttpError(status: int) {
    400 <= status < 600
  }

  /** The response arrived without an HTTP error status. */
  predicate Accepted(fetch: Fetch) {
    fetch.Response? && !IsHttpError(fetch.status)
  }

  /** The file the download opens and writes, if it gets that far. */
  function WrittenPath(urlPath: string, outputPath: Option<string>, fetch: Fetch, canOpen: bool): (path: Option<string>)
    ensures path.Some? <==> Accepted(fetch) && canOpen
    ensures path.Some? ==> path.value == ResolveOutputPath(outputPath, urlPath, fetch.headers)
  {
    if Accepted(fetch) && canOpen then Some(ResolveOutputPath(outputPath, urlPath, fetch.headers)) else None
  }

  /** What `download_audio` returns: the path, or `None` on any failure. */
  function DownloadResult(urlPath: string, outputPath: Option<string>, fetch: Fetch, canOpen: bool): (path: Option<string>)
    ensures path.Some? <==> WrittenPath(urlPath, outputPath, fetch, canOpen).Some? && !fetch.interrupted
    ensures path.Some? ==> path == WrittenPath(urlPath, outputPath, fetch, canOpen)
    ensures path.Some? ==> path.value != ""
  {
    if fetch.Response? && fetch.interrupted then None else WrittenPath(urlPath, outputPath, fetch, canOpen)
  }

  /** The files after the download: unchanged, or the target holding every byte delivered. */
  function FilesAfterDownload(files: map<string, seq<bv8>>, urlPath: string, outputPath: Option<string>,
                              fetch: Fetch, canOpen: bool): (after: map<string, seq<bv8>>)
    ensures WrittenPath(urlPath, outputPath, fetch, canOpen).None? ==> after == files
    ensures WrittenPath(urlPath, outputPath, fetch, canOpen).Some? ==>
              var p := WrittenPath(urlPath, outputPath, fetch, canOpen).value;
              p in after && after[p] == Concat(fetch.chunks) && after - {p} == files - {p}
  {
    match WrittenPath(urlPath, outputPath, fetch, canOpen)
    case None => files
    case Some(p) => files[p := Concat(fetch.chunks)]
  }

  /**
   * `download_audio(url, output_path)`. `canOpen` says whether `open(path, 'wb')` succeeds.
   * A stream that breaks leaves the bytes written so far on disk and returns `None`.
   */
  method DownloadAudio(disk: Disk, urlPath: string, outputPath: Option<string>, fetch: Fetch, canOpen: bool)
    returns (path: Option<string>)
    modifies disk`files
    ensures path == DownloadResult(urlPath, outputPath, fetch, canOpen)
    ensures disk.files == FilesAfterDownload(old(disk.files), urlPath, outputPath, fetch, canOpen)
  {
    if fetch.Unreachable? || IsHttpError(fetch.status) {
      return None;
    }
    var target := ResolveOutputPath(outputPath, urlPath, fetch.headers);
    if !canOpen {
      return None;
    }
    assert WrittenPath(urlPath, outputPath, fetch, canOpen) == Some(target);
    Save(disk, target, fetch.chunks);
    if fetch.interrupted {
      return None;
    }
    return Some(target);
  }

  /** `with open(path, 'wb') as f:` and the loop writing the chunks. */
  method Save(disk: Disk, path: string, chunks: seq<seq<bv8>>)
    modifies disk`files
    ensures disk.files == old(disk.files)[path := Concat(chunks)]
  {
    disk.Create(path);
    WriteChunks(disk, path, chunks);
    assert [] + Concat(chunks) == Concat(chunks);
  }

  /** The `for chunk in response.iter_content(...)` loop: every non-empty chunk is appended in order. */
  method WriteChunks(disk: Disk, path: string, chunks: seq<seq<bv8>>)
    requires path in disk.files
    modifies disk`files
    ensures disk.files == old(disk.files)[path := old(disk.files[path]) + Concat(chunks)]
  {
    ghost var initial := disk.files[path];
    assert chunks[..0] == [] && initial + Concat([]) == initial;
    var i := 0;
    while i < |chunks|
      invariant 0 <= i <= |chunks|
      invariant path in disk.files
      invariant disk.files == old(disk.files)[path := initial + Concat(chunks[..i])]
    {
      var chunk := chunks[i];
      ConcatPrefix(chunks, i);
      assert initial + Concat(chunks[..i + 1]) == (initial + Concat(chunks[..i])) + chunk;
      if chunk != [] {
        disk.Append(path, chunk);
      } else {
        assert (initial + Concat(chunks[..i])) + chunk == initial + Concat(chunks[..i]);
      }
      i := i + 1;
    }
    assert chunks[..i] == chunks;
  }
}
