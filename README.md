# imagene grayscale pipeline in Dafny

A model of the grayscale path of imagene, a command-line tool that loads an
image from a local path or a URL, converts it to 8-bit grayscale, and writes
it as PNG or JPEG, choosing the encoder from the output file's extension.

The model has these modules, one per source file plus the library pieces
those files rely on:

- `Cmd` (imagene/cmd/grayscale.go): the `grayscale` command.
  - `Run` is its Run closure, with the flags as parameters.
  - `SaveOutput` is the part of that closure after the conversion.
  - Also modelled: `getImageFile` (the local path wins), `getLocalImageFile`,
    `getURLImageFile`, `saveImageToFile` and `getFileExtensionFileName`.
- `ImageIO` (internal/image/main.go): the reader and writer.
  - `GetImageFromURLorLocalPath` (the URL wins), `ReadFromURL`,
    `ReadFromLocalPath`, `WriteToFile` and its extension switch (`EncoderFor`),
    and `getFileExtensionFromFileName`.
- `GrayscaleToolkit` (internal/grayscale/toolkit.go) and `Img`
  (internal/img/grayscale.go): the two toolkit types.
  - Each is a class holding the decoded image.
  - Each `AddEffect` is a method with the same nested `y`/`x` loops, filling a
    fresh `*image.Gray` buffer.
- `Raster`: the parts of Go's `image` package the loops use.
  - `Rectangle`, a decoded `Picture` read through `At`, and `GrayImage`, a
    class over an `array2` that models `image.NewGray`, `Set` and `At`.
  - `Scan`, the row-major order in which the loops visit points.
- `GoStrings`: `strings.Index`, `strings.Split` and `strings.Join` with a
  one-character separator, and the last segment of a split.
- `Effects`: the outside world.
  - HTTP, file reads, `os.Create` and the codecs are fields of a `World`
    value.
  - Every call the model makes into them is recorded in a trace of `Event`s.
    The contracts use the trace to say which calls happen and in what order.
- `Base`: `Option` and `Result`.

The model follows the code's behaviour in four places where a reader might
expect something else:

- **Both sources given.** The code does not reject this. internal/image reads
  only the URL, and the command reads only the local file
  (`Cmd.SourcePrecedenceDiffers`).
- **No source given.** In the command, `getImageFile` returns a nil image and
  a nil error, not an error. Run rejects this case before calling it.
- **Unsupported extension.** The output file is created (or truncated)
  *before* the extension is examined. An unsupported extension therefore
  leaves a created file behind, and the file is then closed.
- **Missing extension.** A name without a dot is its own extension. It is
  accepted when the whole name is `png`, `jpg` or `jpeg`. Otherwise it is
  rejected, after the file is created, as an unsupported type naming the
  whole name. The extension is empty only for the empty name or a name
  ending in `.`, and the command rejects both before creating anything. The
  split runs over the whole path, so `out.d/img` has the extension `d/img`.

## Model

| member | source | states |
|---|---|---|
| GoStrings.LastSegmentIsLastSegment | internal/image/main.go:130-131 | The last element of the split is a suffix of the name, contains no separator, and is either the whole name or directly preceded by a separator. |
| GoStrings.LastSegmentCharacterized | internal/image/main.go:130-131 | A string is the last element of the split if and only if it is a separator-free suffix that is the whole name or follows a separator, so the extension is exactly the text after the last dot. |
| GoStrings.LastSegmentFacts | internal/image/main.go:130-131 | The last segment has no separator; a name without a separator is its own last segment; the segment is empty exactly when the name is empty or ends with the separator; with a separator, the name is a prefix, the separator, then the segment. |
| GoStrings.JoinSplit | internal/image/main.go:130 | Joining the parts of a split with the separator gives back the original string, so the split loses nothing. |
| GoStrings.SplitPartsFree | internal/image/main.go:130 | No part of a split contains the separator. |
| GoStrings.IndexFacts | internal/image/main.go:130 | The separator search returns -1 exactly when the separator does not occur, and otherwise the position of its first occurrence. |
| ImageIO.GetFileExtensionFromFileName | internal/image/main.go:129-132 | The extension is empty exactly when the name is empty or ends with a dot; the final index is always in range because a split is never empty. |
| ImageIO.GetFileExtensionFromFileNameShape | internal/image/main.go:129-132 | The extension is the text after the last dot: it has no dot; a name without a dot is its own extension; a name with a dot is a prefix, ".", then the extension. |
| ImageIO.ReadFromURL | internal/image/main.go:69-77 | The calls are exactly the fetch, then a decode only on a 200 reply; a transport error or any status other than 200 gives "The image url provided is invalid" with nothing decoded; otherwise the body is decoded and the decoder's result returned. |
| ImageIO.ReadFromLocalPath | internal/image/main.go:81-88 | The calls are exactly the file read, then a decode only when the read succeeds; a read error gives "The provided local image path is invalid" with nothing decoded; otherwise the contents are decoded and the decoder's result returned. |
| ImageIO.GetImageFromURLorLocalPath | internal/image/main.go:117-126 | A non-empty URL is read even when a local path is also given, and no file is read; with an empty URL the local path is read; with both empty the result is "Both url and local path was not provided" and no I/O happens. |
| ImageIO.EncoderFor | internal/image/main.go:99-111 | "png" selects PNG; "jpg" and "jpeg" select JPEG with nil options; every other extension is an error "<ext> output file type is not supported". |
| ImageIO.UpperCaseExtensionsRejected | internal/image/main.go:101-110 | Matching is case-sensitive: "PNG", "JPG" and "JPEG" are rejected. |
| ImageIO.WriteToFile | internal/image/main.go:91-112 | The file is created first, and a create error is returned before the extension is looked at. An unsupported extension returns its error after a create and a close, leaving the file behind. A supported one encodes that very image, returns the encoder's result, and closes the file. |
| Cmd.GetFileExtensionFileName | imagene/cmd/grayscale.go:90-93 | The extension is empty exactly when the name is empty or ends with a dot. |
| Cmd.GetFileExtensionFileNameShape | imagene/cmd/grayscale.go:90-93 | The same last-dot facts as the library copy: no dot in the extension, a dot-free name is its own extension, and a dotted name is a prefix, ".", then the extension. |
| Cmd.GetLocalImageFile | imagene/cmd/grayscale.go:141-148 | The calls are exactly the file read, then a decode only when the read succeeds; a read error gives "The provided local image path in invalid" with nothing decoded; otherwise the contents are decoded. |
| Cmd.GetURLImageFile | imagene/cmd/grayscale.go:152-160 | The calls are exactly the fetch, then a decode only on a 200 reply; a transport error or a status other than 200 gives "The image url provided is invalid" with nothing decoded; otherwise the body is decoded. |
| Cmd.AsFetched | imagene/cmd/grayscale.go:102-111 | A reader's outcome becomes an (image, error) pair with exactly one of the two set: the reader's own image on success, the reader's own error on failure. |
| Cmd.GetImageFile | imagene/cmd/grayscale.go:97-115 | A non-empty local path is read and the URL ignored; the URL is read only when the local path is empty; both empty gives a nil image and a nil error with no I/O; otherwise exactly one of image and error is set. |
| Cmd.SaveImageToFile | imagene/cmd/grayscale.go:118-137 | "png" encodes as PNG and "jpg"/"jpeg" as JPEG with nil options, each returning the encoder's error; every other extension returns "<ext> file type is not supported" and encodes nothing. |
| Cmd.SaveOutput | imagene/cmd/grayscale.go:58-85 | Empty output is rejected first and an output ending in "." next, both with no I/O. The file is then created, and a create error is returned with nothing after the create. Otherwise saving runs and the file is closed. Success holds exactly when saving reports no error; a failed save returns saving's own error. After the create, the calls are exactly those saving makes, then the close. |
| Cmd.SaveEventsShape | imagene/cmd/grayscale.go:78-84 | Saving succeeds only through a supported encoder whose call reports no error, and then the calls after the create are exactly that encoder on the image and the close. An unsupported extension fails with "<ext> file type is not supported". The close comes last on every path. |
| Cmd.SaveStepAgrees | imagene/cmd/grayscale.go:118-137 | saveImageToFile's error is the unsupported-type message or the chosen encoder's error, and its calls are the chosen encoder's, for every extension. |
| Cmd.Run | imagene/cmd/grayscale.go:39-86 | The checks come in a fixed order: source given (before any I/O), read succeeds, output non-empty, extension non-empty, create succeeds, save succeeds. Each outcome holds exactly when its check is the first to fail, and each failure stops before any later call: a failed create leaves the reads then the create. A failed save returns the unsupported-type message or the encoder's error. The image is converted exactly when it was read: its bounds are the read image's, and every in-bounds sample is the converted colour at that point. On a save, that converted image is the one encoded. |
| Cmd.SourcePrecedenceDiffers | imagene/cmd/grayscale.go:101-109 | With both sources given, the library reads only the URL and the command only the local file; with exactly one given, both make the same calls and agree on the image. |
| Cmd.EncoderChoiceAgrees | imagene/cmd/grayscale.go:119-135 | The command's switch and the library's switch choose the same encoder for every extension and reject the same ones; only the message differs. |
| Raster.GrayImage.constructor | internal/grayscale/toolkit.go:29 | image.NewGray gives a fresh zeroed buffer with exactly the requested bounds. |
| Raster.GrayImage.Set | internal/grayscale/toolkit.go:32 | Set stores the converted colour at an in-bounds point, changes no other sample, and does nothing out of bounds. |
| Raster.ScanIsOrdered | internal/grayscale/toolkit.go:30-31 | The nested loops visit exactly the points of the half-open bounds, in row-major order. |
| Raster.ScanVisitsOnce | internal/grayscale/toolkit.go:30-31 | No point is visited twice, and a point is visited exactly when it is inside the bounds. |
| Raster.EmptyScan | internal/grayscale/toolkit.go:30-31 | Empty bounds visit no point, so `Set` is never called; the outer loop may still step through the rows when only the width is zero. |
| GrayscaleToolkit.Toolkit.constructor | internal/grayscale/toolkit.go:20-24 | NewToolkit stores the image as given. |
| GrayscaleToolkit.Toolkit.AddEffect | internal/grayscale/toolkit.go:28-36 | The result is a fresh buffer with exactly the input's bounds. Every in-bounds sample is the converted input colour at the same point. The points are visited in the order of `Scan`: each in-bounds point once, row by row. |
| GrayscaleToolkit.AddEffectOnEmpty | internal/grayscale/toolkit.go:29-31 | Empty bounds visit no point and give the all-black buffer with those bounds. |
| GrayscaleToolkit.AddEffectTwice | internal/grayscale/toolkit.go:20-36 | Two calls give distinct images with equal bounds and equal samples; within one result, equal input colours give equal samples. |
| Img.GrayToolkit.constructor | internal/img/grayscale.go:11-15 | NewGrayToolkit stores the image as given. |
| Img.GrayToolkit.AddEffect | internal/img/grayscale.go:19-27 | A fresh buffer with exactly the input's bounds; every in-bounds sample is the converted input colour at the same point; points are visited in the order of `Scan`. |
| Img.AddEffectOnEmpty | internal/img/grayscale.go:20-22 | Empty bounds write no sample and give an image with those same bounds. |
| Img.AddEffectTwice | internal/img/grayscale.go:11-27 | The image field is never reassigned, so repeated calls give equal images; equal input colours give equal samples. |

## Left out

- Network, file and codec calls (`http.Get`, `ioutil.ReadFile`, `os.Create`, `image.Decode`, `png.Encode`, `jpeg.Encode`) are not modelled. They are functions of the `World` parameter, whose answers are arbitrary. The model records only which call is made, in what order, and on what.
- The response body's deferred `Close` in the URL readers is not recorded in the trace. It has no effect the model can observe.
- The luma formula is not modelled. It lives in Go's gray colour model inside `Set`, so the conversion is an uninterpreted `GrayModel` parameter. Gray-on-gray identity and the relative luminance of concrete colours are therefore not stated.
- PNG round-trips are not modelled: the codecs are abstract. The encoder's result depends only on the chosen encoder, not on the image (its bounds included) or the file. Go's `png.Encode` rejects a zero-area image and a write can fail depending on the file; both are folded into that one arbitrary answer per encoder.
- `ImageIO.WriteToFile`: takes a `GrayImage` where Go accepts any `image.Image`, because the images this pipeline writes are converted grayscale images.
- What a decoded image's `At` returns outside its bounds is left open. It depends on the concrete image type, and the toolkits only read inside the bounds.
- File names, URLs and paths are sequences of characters, not the byte strings Go uses. Splitting on the ASCII `.` gives the same result for valid UTF-8, but names that are not valid UTF-8 cannot be represented.
- Cobra command registration and flag definitions (imagene/cmd/grayscale.go:162-167) are left out. The flag values are `Run`'s parameters, and the error from reading the `output` flag is not modelled: that flag is always registered, so the lookup does not fail.
- Console messages are left out. `Run` returns which branch ended it instead.
- cmd/cli/grayscale.go is not part of this model. It is a thin wrapper over `ImageIO` and the toolkits.
- main.go's `GrayToolkit` is not modelled. It is an empty interface over an `io.Reader`, so the command's `AddEffect` call cannot resolve against it. `Cmd.Run` converts with `Img.GrayToolkit` instead.
- internal/image/grayscale.go is not part of this model. It does not compile.
- Malformed rectangles are excluded: bounds are well-formed by type (`Raster.Bounds`). Decoders never produce other rectangles, and `image.NewGray` panics on them.
- Integer overflow of coordinates and buffer sizes is not modelled: coordinates are unbounded integers.
