/** The outside world the pipeline talks to, kept abstract: the HTTP client,
    the filesystem and the image codecs are functions of a `World` value, and
    every call the model makes into them is recorded as an `Event`, so that
    the contracts can say which calls happen and in which order. */
module Effects {
  import opened Base
  import opened Raster

  type Bytes = seq<uint8>

  /** net/http.StatusOK */
  const StatusOK := 200

  /** What http.Get gives back: a transport error, or a status and a body. */
  datatype HttpReply = TransportError(msg: string) | Reply(statusCode: int, body: Bytes)

  /** jpeg.Options: only the quality setting exists. */
  datatype JpegOptions = JpegOptions(quality: int)

  /** The encoder an output is written with; `Jpeg(None)` is a call to
      jpeg.Encode with nil options, that is, with the default quality. */
  datatype Encoder = Png | Jpeg(options: Option<JpegOptions>)

  datatype Event =
    | HttpGet(url: string)                        // http.Get
    | ReadFile(path: string)                      // ioutil.ReadFile
    | Decode(data: Bytes)                         // image.Decode on these bytes
    | Create(path: string)                        // os.Create (creates or truncates)
    | Encode(encoder: Encoder, image: GrayImage)  // png.Encode / jpeg.Encode of this image
    | Close(path: string)                         // the deferred (*os.File).Close

  /** The answers the world gives. `create` is the error os.Create reports,
      if any; `encode` is the error the chosen encoder reports, if any. */
  datatype World = World(
    httpGet: string -> HttpReply,
    readFile: string -> Result<Bytes>,
    decode: Bytes -> Result<Picture>,
    create: string -> Option<string>,
    encode: Encoder -> Option<string>)

  /** A value together with the calls made to obtain it, oldest first. */
  datatype Traced<+T> = Traced(value: T, trace: seq<Event>)

  /** Only reading calls: nothing is created, written or closed. */
  predicate ReadsOnly(trace: seq<Event>)
  {
    forall i :: 0 <= i < |trace| ==> trace[i].HttpGet? || trace[i].ReadFile? || trace[i].Decode?
  }

  /** After a reading trace, the file is created exactly when the writing
      part, which starts with its creation, is non-empty. */
  lemma CreateFollowsReads(reading: seq<Event>, writing: seq<Event>, path: string)
    requires ReadsOnly(reading)
    requires writing != [] ==> writing[0] == Create(path)
    ensures Create(path) in reading + writing <==> writing != []
  {
    if writing != [] {
      assert (reading + writing)[|reading|] == Create(path);
    }
  }

  predicate NoFileRead(trace: seq<Event>)
  {
    forall i :: 0 <= i < |trace| ==> !trace[i].ReadFile?
  }

  predicate NoHttp(trace: seq<Event>)
  {
    forall i :: 0 <= i < |trace| ==> !trace[i].HttpGet?
  }

  predicate NoDecode(trace: seq<Event>)
  {
    forall i :: 0 <= i < |trace| ==> !trace[i].Decode?
  }
}
