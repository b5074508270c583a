/** imagene/cmd/grayscale.go: the `grayscale` command. Its Run closure reads
    the image (the local path wins over the URL), converts it, checks the
    output name, creates the output file and saves the image in the format
    the extension names, stopping at the first failure. */
module Cmd {
  import opened Base
  import opened Raster
  import opened Effects
  import GoStrings
  import Img
  import ImageIO

  const LocalPathInvalid := "The provided local image path in invalid"
  const UrlInvalid := "The image url provided is invalid"
  const UnsupportedSuffix := " file type is not supported"

  /** getFileExtensionFileName: the last `.`-separated segment. */
  function GetFileExtensionFileName(filename: string): (ext: string)
    ensures ext == "" <==> filename == "" || filename[|filename| - 1] == '.'
  {
    GoStrings.LastSegmentFacts(filename, '.');
    GoStrings.LastSegment(filename, '.')
  }

  /** The extension never contains a dot; a name without a dot is its own
      extension; a name with a dot is some prefix, a dot, and the extension. */
  lemma GetFileExtensionFileNameShape(filename: string)
    ensures GoStrings.IsLastSegment(filename, '.', GetFileExtensionFileName(filename))
    ensures '.' !in GetFileExtensionFileName(filename)
    ensures '.' !in filename ==> GetFileExtensionFileName(filename) == filename
    ensures '.' in filename ==>
      var ext := GetFileExtensionFileName(filename);
      |ext| < |filename| && filename == filename[..|filename| - |ext| - 1] + "." + ext
  {
    GoStrings.LastSegmentFacts(filename, '.');
    GoStrings.LastSegmentIsLastSegment(filename, '.');
  }

  /** getLocalImageFile: a read error becomes the fixed "invalid local path"
      message and nothing is decoded; otherwise the contents are decoded. */
  function GetLocalImageFile(imageLocalPath: string, w: World): (r: Traced<Result<Picture>>)
    ensures |r.trace| > 0 && r.trace[0] == ReadFile(imageLocalPath) && ReadsOnly(r.trace) && NoHttp(r.trace)
    ensures var contents := w.readFile(imageLocalPath);
      r.trace == [ReadFile(imageLocalPath)] + (if contents.Ok? then [Decode(contents.value)] else [])
    ensures var contents := w.readFile(imageLocalPath);
      && (NoDecode(r.trace) <==> contents.Err?)
      && (contents.Err? ==> r.value == Err(LocalPathInvalid))
      && (contents.Ok? ==> r.value == w.decode(contents.value) && Decode(contents.value) in r.trace)
  {
    match w.readFile(imageLocalPath)
    case Err(_) => Traced(Err(LocalPathInvalid), [ReadFile(imageLocalPath)])
    case Ok(contents) =>
      var trace := [ReadFile(imageLocalPath), Decode(contents)];
      assert trace[1].Decode?;
      Traced(w.decode(contents), trace)
  }

  /** getURLImageFile: a transport error or a status other than 200 becomes
      the fixed "invalid url" message and nothing is decoded; otherwise the
      body is decoded. */
  function GetURLImageFile(imageURL: string, w: World): (r: Traced<Result<Picture>>)
    ensures |r.trace| > 0 && r.trace[0] == HttpGet(imageURL) && ReadsOnly(r.trace) && NoFileRead(r.trace)
    ensures var reply := w.httpGet(imageURL);
      r.trace == [HttpGet(imageURL)] + (if reply.Reply? && reply.statusCode == StatusOK then [Decode(reply.body)] else [])
    ensures var reply := w.httpGet(imageURL);
      && (NoDecode(r.trace) <==> reply.TransportError? || reply.statusCode != StatusOK)
      && (reply.TransportError? || reply.statusCode != StatusOK ==> r.value == Err(UrlInvalid))
      && (reply.Reply? && reply.statusCode == StatusOK ==>
            r.value == w.decode(reply.body) && Decode(reply.body) in r.trace)
  {
    match w.httpGet(imageURL)
    case TransportError(_) => Traced(Err(UrlInvalid), [HttpGet(imageURL)])
    case Reply(status, body) =>
      if status != StatusOK then Traced(Err(UrlInvalid), [HttpGet(imageURL)])
      else
        var trace := [HttpGet(imageURL), Decode(body)];
        assert trace[1].Decode?;
        Traced(w.decode(body), trace)
  }

  /** Go's `(img image.Image, err error)` pair: either may be nil. */
  datatype Fetched = Fetched(image: Option<Picture>, err: Option<string>)

  /** The named results a reader's outcome leaves in getImageFile. */
  function AsFetched(r: Result<Picture>): (f: Fetched)
    ensures f.image.Some? <==> f.err.None?
    ensures r.Ok? ==> f.image == Some(r.value)
    ensures r.Err? ==> f.err == Some(r.msg)
  {
    match r
    case Ok(p) => Fetched(Some(p), None)
    case Err(e) => Fetched(None, Some(e))
  }

  /** getImageFile: a non-empty local path wins and the URL is ignored;
      the URL is read only when the local path is empty; with both empty it
      returns a nil image AND a nil error, doing no I/O. */
  function GetImageFile(local: string, url: string, w: World): (r: Traced<Fetched>)
    ensures ReadsOnly(r.trace)
    ensures local != "" ==>
      r == Traced(AsFetched(GetLocalImageFile(local, w).value), GetLocalImageFile(local, w).trace) &&
      NoHttp(r.trace)
    ensures local == "" && url != "" ==>
      r == Traced(AsFetched(GetURLImageFile(url, w).value), GetURLImageFile(url, w).trace) &&
      NoFileRead(r.trace)
    ensures local == "" && url == "" ==> r == Traced(Fetched(None, None), [])
    ensures local != "" || url != "" ==> (r.value.image.Some? <==> r.value.err.None?)
  {
    if local != "" then
      var got := GetLocalImageFile(local, w);
      Traced(AsFetched(got.value), got.trace)
    else if url != "" && local == "" then
      var got := GetURLImageFile(url, w);
      Traced(AsFetched(got.value), got.trace)
    else
      Traced(Fetched(None, None), [])
  }

  /** saveImageToFile on an already created file: "png" encodes as PNG,
      "jpg" and "jpeg" as JPEG with nil options, each returning the
      encoder's error; every other extension is an error naming it, and
      nothing is encoded. */
  function SaveImageToFile(image: GrayImage, fileExtension: string, w: World): (r: Traced<Option<string>>)
    ensures fileExtension == "png" ==>
      r == Traced(w.encode(Png), [Encode(Png, image)])
    ensures fileExtension == "jpg" || fileExtension == "jpeg" ==>
      r == Traced(w.encode(Jpeg(None)), [Encode(Jpeg(None), image)])
    ensures fileExtension != "png" && fileExtension != "jpg" && fileExtension != "jpeg" ==>
      r == Traced(Some(fileExtension + UnsupportedSuffix), [])
  {
    if fileExtension == "png" then
      Traced(w.encode(Png), [Encode(Png, image)])
    else if fileExtension == "jpg" || fileExtension == "jpeg" then
      Traced(w.encode(Jpeg(None)), [Encode(Jpeg(None), image)])
    else
      Traced(Some(fileExtension + UnsupportedSuffix), [])
  }

  /** Which branch of Run ended the command. */
  datatype RunOutcome =
    | MissingSource            // neither --local nor --url
    | ReadFailed(err: string)  // getImageFile returned an error
    | MissingOutput            // -o is empty
    | MissingExtension         // the output name ends with "."
    | CreateFailed(err: string)
    | SaveFailed(err: string)
    | Converted

  predicate SourceGiven(local: string, url: string)
  {
    local != "" || url != ""
  }

  /** A source was given and reading and decoding it succeeded. */
  predicate ImageFetched(local: string, url: string, w: World)
  {
    SourceGiven(local, url) && GetImageFile(local, url, w).value.err.None?
  }

  /** Every check before os.Create passed. */
  predicate ReadyToCreate(local: string, url: string, output: string, w: World)
  {
    ImageFetched(local, url, w) && output != "" && output[|output| - 1] != '.'
  }

  /** The second half of the Run closure, once the image is converted: the
      output must be non-empty, its extension non-empty, the file is created
      and then the image is saved; the created file is closed on every path
      that follows. saveImageToFile's error and calls are SaveError and
      SaveEvents (SaveStepAgrees). */
  method SaveOutput(gray: GrayImage, output: string, w: World) returns (outcome: RunOutcome, trace: seq<Event>)
    ensures outcome == MissingOutput <==> output == ""
    ensures outcome == MissingExtension <==> output != "" && output[|output| - 1] == '.'
    ensures outcome == MissingOutput || outcome == MissingExtension ==> trace == []
    ensures outcome.CreateFailed? <==> output != "" && output[|output| - 1] != '.' && w.create(output).Some?
    ensures outcome.CreateFailed? ==> Some(outcome.err) == w.create(output) && trace == [Create(output)]
    ensures var ext := GetFileExtensionFileName(output);
      && (outcome == Converted <==>
            output != "" && output[|output| - 1] != '.' && w.create(output).None? && SaveError(ext, w).None?)
      && (outcome.SaveFailed? ==> Some(outcome.err) == SaveError(ext, w))
      && (outcome.SaveFailed? || outcome == Converted ==> trace == [Create(output)] + SaveEvents(gray, ext, output))
    ensures !outcome.MissingSource? && !outcome.ReadFailed?
  {
    if output == "" {
      return MissingOutput, [];
    }
    var ext := GetFileExtensionFileName(output);
    if ext == "" {
      return MissingExtension, [];
    }
    trace := [Create(output)];
    var created := w.create(output);
    if created.Some? {
      return CreateFailed(created.value), trace;
    }
    var saved := SaveImageToFile(gray, ext, w);
    SaveStepAgrees(gray, output, w);
    trace := trace + saved.trace + [Close(output)];
    if saved.value.Some? {
      return SaveFailed(saved.value.value), trace;
    }
    return Converted, trace;
  }

  /** The error saving reports once the file exists: the unsupported-type
      message, or else the chosen encoder's own error. */
  function SaveError(ext: string, w: World): Option<string>
  {
    match ImageIO.EncoderFor(ext)
    case Err(_) => Some(ext + UnsupportedSuffix)
    case Ok(encoder) => w.encode(encoder)
  }

  /** The calls saving makes once the file exists: the encoder, when the
      extension names one, and then the deferred close. */
  function SaveEvents(gray: GrayImage, ext: string, output: string): seq<Event>
  {
    match ImageIO.EncoderFor(ext)
    case Err(_) => [Close(output)]
    case Ok(encoder) => [Encode(encoder, gray), Close(output)]
  }

  /** The Run closure of the grayscale command, with its flags as
      parameters. The checks come in a fixed order: a source is given
      (before any I/O); reading succeeds; the output is non-empty; its
      extension is non-empty; the file can be created; saving succeeds.
      Each failure stops the command before any later call. The image is
      read and converted before the output flag is looked at; `gray` is the
      converted image, and it is that image which is encoded. */
  method Run(local: string, url: string, output: string, w: World, model: GrayModel)
    returns (outcome: RunOutcome, trace: seq<Event>, gray: Option<GrayImage>)
    ensures outcome == MissingSource <==> !SourceGiven(local, url)
    ensures outcome == MissingSource ==> trace == []
    ensures outcome.ReadFailed? <==> SourceGiven(local, url) && !ImageFetched(local, url, w)
    ensures outcome.ReadFailed? ==>
      Some(outcome.err) == GetImageFile(local, url, w).value.err && trace == GetImageFile(local, url, w).trace
    ensures gray.Some? <==> ImageFetched(local, url, w)
    ensures gray.Some? ==>
      var picture := GetImageFile(local, url, w).value.image.value;
      && gray.value.Valid() && gray.value.rect == picture.bounds
      && forall x, y :: picture.bounds.Contains(x, y) ==> gray.value.At(x, y) == model(picture.At(x, y))
    ensures outcome == MissingOutput <==> ImageFetched(local, url, w) && output == ""
    ensures outcome == MissingExtension <==>
      ImageFetched(local, url, w) && output != "" && output[|output| - 1] == '.'
    ensures outcome == MissingOutput || outcome == MissingExtension ==> trace == GetImageFile(local, url, w).trace
    ensures Create(output) in trace <==> ReadyToCreate(local, url, output, w)
    ensures outcome.CreateFailed? <==> ReadyToCreate(local, url, output, w) && w.create(output).Some?
    ensures outcome.CreateFailed? ==>
      Some(outcome.err) == w.create(output) && trace == GetImageFile(local, url, w).trace + [Create(output)]
    ensures var ext := GetFileExtensionFileName(output);
      && (outcome == Converted <==>
            ReadyToCreate(local, url, output, w) && w.create(output).None? && SaveError(ext, w).None?)
      && (outcome.SaveFailed? ==> Some(outcome.err) == SaveError(ext, w))
      && (outcome.SaveFailed? || outcome == Converted ==>
            trace == GetImageFile(local, url, w).trace + [Create(output)] + SaveEvents(gray.value, ext, output))
  {
    gray := None;
    if local == "" && url == "" {
      return MissingSource, [], gray;
    }
    var fetched := GetImageFile(local, url, w);
    if fetched.value.err.Some? {
      return ReadFailed(fetched.value.err.value), fetched.trace, gray;
    }
    var toolkit := new Img.GrayToolkit(fetched.value.image.value);
    var converted, order := toolkit.AddEffect(model);
    gray := Some(converted);
    var written;
    outcome, written := SaveOutput(converted, output, w);
    trace := fetched.trace + written;
    CreateFollowsReads(fetched.trace, written, output);
  }

  /** Saving succeeds only through a supported encoder, and then the calls
      after the create are exactly that encoder on the image and the close;
      on every path the close comes last. */
  lemma SaveEventsShape(gray: GrayImage, ext: string, output: string, w: World)
    ensures SaveError(ext, w).None? ==>
      && ImageIO.EncoderFor(ext).Ok?
      && w.encode(ImageIO.EncoderFor(ext).value).None?
      && SaveEvents(gray, ext, output) == [Encode(ImageIO.EncoderFor(ext).value, gray), Close(output)]
    ensures ImageIO.EncoderFor(ext).Err? ==> SaveError(ext, w) == Some(ext + UnsupportedSuffix)
    ensures var events := SaveEvents(gray, ext, output); events[|events| - 1] == Close(output)
  {
  }

  /** In terms of the extension switch: saving fails exactly with
      SaveError, and writes exactly SaveEvents after the create. */
  lemma SaveStepAgrees(gray: GrayImage, output: string, w: World)
    ensures var ext := GetFileExtensionFileName(output);
      var saved := SaveImageToFile(gray, ext, w);
      && saved.value == SaveError(ext, w)
      && saved.trace + [Close(output)] == SaveEvents(gray, ext, output)
  {
    var ext := GetFileExtensionFileName(output);
    EncoderChoiceAgrees(gray, ext, w);
  }

  /** The two readers give opposite precedence: with both sources given,
      internal/image fetches only the URL and this command reads only the
      local file; with exactly one given, both perform the same calls and
      agree on the image. */
  lemma SourcePrecedenceDiffers(local: string, url: string, w: World)
    ensures local != "" && url != "" ==>
      NoFileRead(ImageIO.GetImageFromURLorLocalPath(url, local, w).trace) &&
      NoHttp(GetImageFile(local, url, w).trace)
    ensures (local == "") != (url == "") ==>
      var viaLib := ImageIO.GetImageFromURLorLocalPath(url, local, w);
      var viaCmd := GetImageFile(local, url, w);
      && viaLib.trace == viaCmd.trace
      && (viaLib.value.Ok? <==> viaCmd.value.err.None?)
      && (viaLib.value.Ok? ==> viaCmd.value.image == Some(viaLib.value.value))
  {
  }

  /** Both output switches choose the same encoder for the same extension
      and reject the same extensions; only the message text differs. */
  lemma EncoderChoiceAgrees(image: GrayImage, ext: string, w: World)
    ensures ImageIO.EncoderFor(ext).Ok? ==>
      SaveImageToFile(image, ext, w) ==
        Traced(w.encode(ImageIO.EncoderFor(ext).value), [Encode(ImageIO.EncoderFor(ext).value, image)])
    ensures ImageIO.EncoderFor(ext).Err? <==> SaveImageToFile(image, ext, w).trace == []
    ensures ImageIO.EncoderFor(ext).Err? ==> SaveImageToFile(image, ext, w).value.Some?
  {
  }
}
