/**
 * How the downloader names the local file when the caller gives no output path:
 * the URL's last path segment, else the `filename` parameter of `Content-Disposition`,
 * else a name made up from `Content-Type`. A candidate is usable only if it contains a `.`.
 */
module Filename {
  import opened Wrappers
  import opened Text
  import opened Disposition

  /** The two response headers the naming consults; `None` when the header is absent. */
  datatype Headers = Headers(contentDisposition: Option<string>, contentType: Option<string>)

  /** Python truthiness of an optional string: present and non-empty. */
  predicate Given(s: Option<string>) {
    s.Some? && s.value != ""
  }

  predicate HasDot(name: string) {
    '.' in name
  }

  /** The header's `filename` parameter, when the header is present and non-empty and has one. */
  function DispositionName(contentDisposition: Option<string>): (name: Option<string>)
    ensures name.Some? ==> Given(contentDisposition) && name == FilenameParameter(contentDisposition.value)
    ensures Given(contentDisposition) ==> name == FilenameParameter(contentDisposition.value)
    ensures name.Some? ==> name.value != "" && QUOTE !in name.value
  {
    if Given(contentDisposition) then FilenameParameter(contentDisposition.value) else None
  }

  /** The made-up name: `audio` plus the first of mp3, wav, m4a named in an audio content type. */
  function ContentTypeName(contentType: string): (name: string)
    ensures HasDot(name) && StartsWith(name, "audio.")
    ensures name == "audio.mp3" <==> Contains(contentType, "audio") && Contains(contentType, "mp3")
    ensures name == "audio.wav" <==> Contains(contentType, "audio") && !Contains(contentType, "mp3")
                                      && Contains(contentType, "wav")
    ensures name == "audio.m4a" <==> Contains(contentType, "audio") && !Contains(contentType, "mp3")
                                      && !Contains(contentType, "wav") && Contains(contentType, "m4a")
    ensures name == "audio.audio" <==> !Contains(contentType, "audio")
                                        || (!Contains(contentType, "mp3") && !Contains(contentType, "wav")
                                            && !Contains(contentType, "m4a"))
  {
    if Contains(contentType, "audio") then
      if Contains(contentType, "mp3") then "audio.mp3"
      else if Contains(contentType, "wav") then "audio.wav"
      else if Contains(contentType, "m4a") then "audio.m4a"
      else "audio.audio"
    else "audio.audio"
  }

  /** The path the download is written to, following the script's chain of fallbacks. */
  function ResolveOutputPath(outputPath: Option<string>, urlPath: string, headers: Headers): (path: string)
    ensures Given(outputPath) ==> path == outputPath.value
    ensures !Given(outputPath) ==> HasDot(path)
    ensures path != ""
  {
    if Given(outputPath) then outputPath.value
    else
      var filename := Basename(urlPath);
      if HasDot(filename) then filename
      else
        var filename' := DispositionName(headers.contentDisposition).GetOr(filename);
        if HasDot(filename') then filename'
        else ContentTypeName(headers.contentType.GetOr(""))
  }

  // ----- The naming policy as an ordered list of candidates -----

  /** The candidate names in order of precedence: URL segment, disposition parameter (if any), made-up name. */
  function Candidates(urlPath: string, headers: Headers): seq<string> {
    [Basename(urlPath)]
    + (match DispositionName(headers.contentDisposition) case Some(n) => [n] case None => [])
    + [ContentTypeName(headers.contentType.GetOr(""))]
  }

  /** The first candidate that contains a `.`. */
  function FirstUsable(candidates: seq<string>): (name: Option<string>)
    ensures name.Some? ==> name.value in candidates && HasDot(name.value)
    ensures name.None? <==> forall n :: n in candidates ==> !HasDot(n)
  {
    if candidates == [] then None
    else if HasDot(candidates[0]) then Some(candidates[0])
    else FirstUsable(candidates[1..])
  }

  lemma FirstUsableCons(name: string, rest: seq<string>)
    ensures FirstUsable([name] + rest) == if HasDot(name) then Some(name) else FirstUsable(rest)
  {
    assert ([name] + rest)[0] == name;
    assert ([name] + rest)[1..] == rest;
  }

  /** The first usable of three candidates, the middle one optional, when the last always has a `.`. */
  lemma FirstUsableOfThree(fromUrl: string, middle: Option<string>, made: string)
    requires HasDot(made)
    ensures FirstUsable([fromUrl] + (match middle case Some(n) => [n] case None => []) + [made])
         == if HasDot(fromUrl) then Some(fromUrl)
            else if middle.Some? && HasDot(middle.value) then middle
            else Some(made)
  {
    FirstUsableCons(made, []);
    match middle {
      case None =>
        assert [fromUrl] + [] + [made] == [fromUrl] + [made];
        FirstUsableCons(fromUrl, [made]);
      case Some(n) =>
        assert [fromUrl] + [n] + [made] == [fromUrl] + ([n] + [made]);
        FirstUsableCons(fromUrl, [n] + [made]);
        FirstUsableCons(n, [made]);
    }
  }

  /** The script's chain of tests picks the first usable candidate in order of precedence. */
  lemma ResolveIsFirstUsable(outputPath: Option<string>, urlPath: string, headers: Headers)
    requires !Given(outputPath)
    ensures FirstUsable(Candidates(urlPath, headers)) == Some(ResolveOutputPath(outputPath, urlPath, headers))
  {
    FirstUsableOfThree(Basename(urlPath), DispositionName(headers.contentDisposition),
                       ContentTypeName(headers.contentType.GetOr("")));
  }

  // ----- Precedence, one rule at a time -----

  /** A non-empty output path is taken as it is; neither the URL nor any header matters. */
  lemma OutputPathWins(outputPath: Option<string>, urlPath: string, headers: Headers,
                       urlPath': string, headers': Headers)
    requires Given(outputPath)
    ensures ResolveOutputPath(outputPath, urlPath, headers) == outputPath.value
    ensures ResolveOutputPath(outputPath, urlPath, headers) == ResolveOutputPath(outputPath, urlPath', headers')
  {
  }

  /** A URL segment with a `.` is taken, whatever the headers say. */
  lemma UrlNameWins(outputPath: Option<string>, urlPath: string, headers: Headers, headers': Headers)
    requires !Given(outputPath) && HasDot(Basename(urlPath))
    ensures ResolveOutputPath(outputPath, urlPath, headers) == Basename(urlPath)
    ensures ResolveOutputPath(outputPath, urlPath, headers) == ResolveOutputPath(outputPath, urlPath, headers')
  {
  }

  /** Otherwise a disposition parameter with a `.` is taken, whatever the content type says. */
  lemma DispositionNameWins(outputPath: Option<string>, urlPath: string, headers: Headers, contentType': Option<string>)
    requires !Given(outputPath) && !HasDot(Basename(urlPath))
    requires DispositionName(headers.contentDisposition).Some?
    requires HasDot(DispositionName(headers.contentDisposition).value)
    ensures ResolveOutputPath(outputPath, urlPath, headers) == DispositionName(headers.contentDisposition).value
    ensures ResolveOutputPath(outputPath, urlPath, headers)
         == ResolveOutputPath(outputPath, urlPath, headers.(contentType := contentType'))
  {
  }

  /** Otherwise the made-up name from the content type (an absent header reads as ""). */
  lemma ContentTypeNameLast(outputPath: Option<string>, urlPath: string, headers: Headers)
    requires !Given(outputPath) && !HasDot(Basename(urlPath))
    requires DispositionName(headers.contentDisposition).None?
          || !HasDot(DispositionName(headers.contentDisposition).value)
    ensures ResolveOutputPath(outputPath, urlPath, headers) == ContentTypeName(headers.contentType.GetOr(""))
  {
  }

  // ----- Worked examples: a quoted disposition, a URL segment, an mp3 content type -----

  /**
   * A quoted parameter such as `attachment; filename="x.wav"` names the file when the URL
   * does not, whatever the content type.
   */
  lemma QuotedDispositionExample(prefix: string, name: string, urlPath: string, contentType: Option<string>)
    requires '=' !in prefix && name != "" && QUOTE !in name && HasDot(name)
    requires !HasDot(Basename(urlPath))
    ensures ResolveOutputPath(None, urlPath,
              Headers(Some(prefix + KEY + [QUOTE] + name + [QUOTE]), contentType)) == name
  {
    var header := prefix + KEY + [QUOTE] + name + [QUOTE];
    QuotedFilename(prefix, name);
    assert DispositionName(Some(header)) == Some(name);
    DispositionNameWins(None, urlPath, Headers(Some(header), contentType), contentType);
  }

  /** The pieces of `attachment; filename="x.wav"` meet the conditions of the quoted example. */
  lemma AttachmentWavPieces(prefix: string, name: string)
    requires prefix == "attachment; " && name == "x.wav"
    ensures '=' !in prefix && name != "" && QUOTE !in name && HasDot(name)
  {
    assert name[1] == '.';
    assert forall k :: 0 <= k < |name| ==> name[k] != QUOTE;
    assert forall k :: 0 <= k < |prefix| ==> prefix[k] != '=';
  }

  /** `Content-Disposition: attachment; filename="x.wav"` names the file `x.wav` when the URL does not. */
  lemma AttachmentWavExample(prefix: string, name: string, urlPath: string, contentType: Option<string>)
    requires prefix == "attachment; " && name == "x.wav"
    requires !HasDot(Basename(urlPath))
    ensures ResolveOutputPath(None, urlPath,
              Headers(Some(prefix + KEY + [QUOTE] + name + [QUOTE]), contentType)) == "x.wav"
  {
    AttachmentWavPieces(prefix, name);
    QuotedDispositionExample(prefix, name, urlPath, contentType);
  }

  /** A URL path ending in `/clip.mp3` names the file `clip.mp3`, whatever the headers. */
  lemma UrlSegmentExample(dir: string, headers: Headers)
    ensures ResolveOutputPath(None, dir + "/clip.mp3", headers) == "clip.mp3"
  {
    assert dir + "/clip.mp3" == dir + "/" + "clip.mp3";
    BasenameAfterSlash(dir, "clip.mp3");
  }

  /** `audio/mp3` is an audio type naming mp3. */
  lemma Mp3ContentTypeName(contentType: string)
    requires contentType == "audio/mp3"
    ensures ContentTypeName(contentType) == "audio.mp3"
  {
    ContainsAt(contentType, "audio", 0);
    ContainsAt(contentType, "mp3", 6);
  }

  /** With no usable name elsewhere, `Content-Type: audio/mp3` gives `audio.mp3`. */
  lemma ContentTypeExample(urlPath: string, contentType: string)
    requires contentType == "audio/mp3"
    requires !HasDot(Basename(urlPath))
    ensures ResolveOutputPath(None, urlPath, Headers(None, Some(contentType))) == "audio.mp3"
  {
    Mp3ContentTypeName(contentType);
    ContentTypeNameLast(None, urlPath, Headers(None, Some(contentType)));
  }
}
