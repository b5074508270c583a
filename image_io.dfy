/** internal/image/main.go: the image reader and writer used by the CLI in
    cmd/cli. Reading prefers the URL over the local path; writing creates
    the output file first and then picks the encoder from the file name's
    extension. */
module ImageIO {
  import opened Base
  import opened Raster
  import opened Effects
  import GoStrings

  const UrlInvalid := "The image url provided is invalid"
  const LocalPathInvalid := "The provided local image path is invalid"
  const NoSourceProvided := "Both url and local path was not provided"
  const UnsupportedSuffix := " output file type is not supported"

  /** getFileExtensionFromFileName: the last `.`-separated segment. */
  function GetFileExtensionFromFileName(filename: string): (ext: string)
    ensures ext == "" <==> filename == "" || filename[|filename| - 1] == '.'
  {
    GoStrings.LastSegmentFacts(filename, '.');
    GoStrings.LastSegment(filename, '.')
  }

  /** The extension never contains a dot; a name without a dot is its own
      extension; a name with a dot is some prefix, a dot, and the extension. */
  lemma GetFileExtensionFromFileNameShape(filename: string)
    ensures GoStrings.IsLastSegment(filename, '.', GetFileExtensionFromFileName(filename))
    ensures '.' !in GetFileExtensionFromFileName(filename)
    ensures '.' !in filename ==> GetFileExtensionFromFileName(filename) == filename
    ensures '.' in filename ==>
      var ext := GetFileExtensionFromFileName(filename);
      |ext| < |filename| && filename == filename[..|filename| - |ext| - 1] + "." + ext
  {
    GoStrings.LastSegmentFacts(filename, '.');
    GoStrings.LastSegmentIsLastSegment(filename, '.');
  }

  /** reader.ReadFromURL: GET the URL; a transport error or any status but
      200 is reported as an invalid URL without decoding anything; otherwise
      the body is decoded. */
  function ReadFromURL(url: string, w: World): (r: Traced<Result<Picture>>)
    ensures |r.trace| > 0 && r.trace[0] == HttpGet(url) && ReadsOnly(r.trace) && NoFileRead(r.trace)
    ensures var reply := w.httpGet(url);
      r.trace == [HttpGet(url)] + (if reply.Reply? && reply.statusCode == StatusOK then [Decode(reply.body)] else [])
    ensures var reply := w.httpGet(url);
      && (NoDecode(r.trace) <==> reply.TransportError? || reply.statusCode != StatusOK)
      && (reply.TransportError? || reply.statusCode != StatusOK ==> r.value == Err(UrlInvalid))
      && (reply.Reply? && reply.statusCode == StatusOK ==>
            r.value == w.decode(reply.body) && Decode(reply.body) in r.trace)
  {
    match w.httpGet(url)
    case TransportError(_) => Traced(Err(UrlInvalid), [HttpGet(url)])
    case Reply(status, body) =>
      if status != StatusOK then Traced(Err(UrlInvalid), [HttpGet(url)])
      else
        var trace := [HttpGet(url), Decode(body)];
        assert trace[1].Decode?;
        Traced(w.decode(body), trace)
  }

  /** reader.ReadFromLocalPath: read the whole file; a read error is
      reported as an invalid local path without decoding anything;
      otherwise the contents are decoded. */
  function ReadFromLocalPath(localPath: string, w: World): (r: Traced<Result<Picture>>)
    ensures |r.trace| > 0 && r.trace[0] == ReadFile(localPath) && ReadsOnly(r.trace) && NoHttp(r.trace)
    ensures var contents := w.readFile(localPath);
      r.trace == [ReadFile(localPath)] + (if contents.Ok? then [Decode(contents.value)] else [])
    ensures var contents := w.readFile(localPath);
      && (NoDecode(r.trace) <==> contents.Err?)
      && (contents.Err? ==> r.value == Err(LocalPathInvalid))
      && (contents.Ok? ==> r.value == w.decode(contents.value) && Decode(contents.value) in r.trace)
  {
    match w.readFile(localPath)
    case Err(_) => Traced(Err(LocalPathInvalid), [ReadFile(localPath)])
    case Ok(contents) =>
      var trace := [ReadFile(localPath), Decode(contents)];
      assert trace[1].Decode?;
      Traced(w.decode(contents), trace)
  }

  /** reader.GetImageFromURLorLocalPath: a non-empty URL wins even when a
      local path is given too; the local path is read only when the URL is
      empty; with neither, an error and no I/O at all. */
  function GetImageFromURLorLocalPath(url: string, localPath: string, w: World): (r: Traced<Result<Picture>>)
    ensures ReadsOnly(r.trace)
    ensures url != "" ==> r == ReadFromURL(url, w) && NoFileRead(r.trace)
    ensures url == "" && localPath != "" ==> r == ReadFromLocalPath(localPath, w) && NoHttp(r.trace)
    ensures url == "" && localPath == "" ==> r == Traced(Err(NoSourceProvided), [])
    ensures r.value.Err? || |r.trace| > 0
  {
    if url != "" then ReadFromURL(url, w)
    else if localPath != "" then ReadFromLocalPath(localPath, w)
    else Traced(Err(NoSourceProvided), [])
  }

  /** The switch in writer.WriteToFile: "png" selects the PNG encoder,
      "jpg" and "jpeg" the JPEG encoder with nil options, and every other
      extension, upper-case spellings included, is an error naming it. */
  function EncoderFor(ext: string): (r: Result<Encoder>)
    ensures r.Ok? <==> ext == "png" || ext == "jpg" || ext == "jpeg"
    ensures r == Ok(Png) <==> ext == "png"
    ensures r == Ok(Jpeg(None)) <==> ext == "jpg" || ext == "jpeg"
    ensures r.Err? ==> r.msg == ext + UnsupportedSuffix
  {
    if ext == "png" then Ok(Png)
    else if ext == "jpg" || ext == "jpeg" then Ok(Jpeg(None))
    else Err(ext + UnsupportedSuffix)
  }

  /** Matching is case-sensitive: the upper-case spellings are rejected. */
  lemma UpperCaseExtensionsRejected()
    ensures EncoderFor("PNG").Err? && EncoderFor("JPG").Err? && EncoderFor("JPEG").Err?
  {
  }

  /** writer.WriteToFile: create (or truncate) the output file first, and
      return its error if that fails; only then look at the extension; an
      unsupported one is an error that leaves the created file behind; a
      supported one encodes the image and returns the encoder's error.
      Once created, the file is closed on every path. */
  function WriteToFile(image: GrayImage, output: string, w: World): (r: Traced<Option<string>>)
    ensures |r.trace| > 0 && r.trace[0] == Create(output)
    ensures w.create(output).Some? ==> r == Traced(w.create(output), [Create(output)])
    ensures w.create(output).None? ==> r.trace[|r.trace| - 1] == Close(output)
    ensures var ext := GetFileExtensionFromFileName(output);
      && (w.create(output).None? && EncoderFor(ext).Err? ==>
            r == Traced(Some(ext + UnsupportedSuffix), [Create(output), Close(output)]))
      && (w.create(output).None? && EncoderFor(ext).Ok? ==>
            r.value == w.encode(EncoderFor(ext).value) &&
            r.trace == [Create(output), Encode(EncoderFor(ext).value, image), Close(output)])
    ensures r.value.None? ==> EncoderFor(GetFileExtensionFromFileName(output)).Ok?
  {
    match w.create(output)
    case Some(err) => Traced(Some(err), [Create(output)])
    case None =>
      var ext := GetFileExtensionFromFileName(output);
      match EncoderFor(ext)
      case Err(msg) => Traced(Some(msg), [Create(output), Close(output)])
      case Ok(encoder) => Traced(w.encode(encoder), [Create(output), Encode(encoder, image), Close(output)])
  }
}
