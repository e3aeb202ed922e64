/**
 * `Util.formatToWebpSticker` and the two formatters it dispatches to: which
 * path a media item takes by its MIME type, what the image resizer and the
 * video transcoder are asked to do, and, when a pack name or author is
 * given, the EXIF metadata attached to the resulting WebP sticker.
 *
 * The image library (sharp), the transcoder (ffmpeg, with its temporary
 * file), the WebP container library (node-webpmux), `JSON.stringify` and
 * `Math.random` are collaborators passed in as functions; the clock's
 * reading is passed in as a number.
 */
module Sticker {
  import opened Wrappers
  import opened Text
  import Hash
  import Exif

  /** A `MessageMedia`: MIME type, base64 content and file name. */
  datatype Media = Media(mimetype: string, data: string, filename: string)

  /** Optional pack metadata; `None` is a property left `undefined`. */
  datatype StickerMetadata = StickerMetadata(
    name: Option<string>,
    author: Option<string>,
    categories: Option<seq<string>>)

  /** The errors the formatters raise, by the step that raises them. */
  datatype MediaError =
    | NotAnImage            // "media is not a image"
    | NotAVideo             // "media is not a video"
    | InvalidMediaFormat    // "Invalid media format"
    | ResizeFailed          // rejected by the image library
    | TranscodeFailed       // ffmpeg's "error" event
    | ValueOutOfRange       // `writeUIntLE` given a length of 2^32 or more
    | ContainerFormatError  // the WebP container library could not load the sticker

  datatype Rgba = Rgba(r: int, g: int, b: int, alpha: int)

  /** The `resizeObj` handed to sharp's `resize`; absent fields are `None`. */
  datatype ResizeOptions = ResizeOptions(
    width: nat, height: nat, fit: Option<string>, background: Option<Rgba>)

  /** What ffmpeg is asked to do: the input format and the `-vf` filter graph. */
  datatype TranscodeJob = TranscodeJob(inputFormat: Option<string>, filter: string)

  /** The JSON object serialized into the EXIF blob; `None` fields are `undefined`. */
  datatype StickerJson = StickerJson(
    packId: string, packName: Option<string>, publisher: Option<string>, emojis: seq<string>)

  /** The libraries and ambient inputs the formatters call out to. */
  datatype Collaborators = Collaborators(
    resize: (string, ResizeOptions) -> Option<string>,   // sharp(...).resize(opts).webp().toBuffer(), base64
    transcode: (string, TranscodeJob) -> Option<string>, // ffmpeg into a temporary file, read back as base64
    stringify: StickerJson -> seq<Exif.byte>,            // JSON.stringify, encoded as UTF-8
    attachExif: (string, seq<Exif.byte>) -> Option<string>, // webpmux load, set `exif`, save
    random: nat -> real,                                 // the i-th Math.random() draw
    now: nat)                                            // new Date().getTime()

  datatype Route = ImageRoute | VideoRoute

  /** The MIME type of every sticker the formatters produce. */
  const WebpMimeType: string := "image/webp"

  lemma WebpMimeTypeIsWebpImage()
    ensures Includes(WebpMimeType, "image") && Includes(WebpMimeType, "webp")
  {
    assert OccursAt(WebpMimeType, "image", 0);
    assert OccursAt(WebpMimeType, "webp", 6);
  }

  /**
   * `formatToWebpSticker`'s dispatch: "image" anywhere in the MIME type wins,
   * then "video"; anything else is rejected.
   */
  function Dispatch(mimetype: string): (r: Result<Route, MediaError>)
    ensures r == Success(ImageRoute) <==> Includes(mimetype, "image")
    ensures r == Success(VideoRoute) <==> !Includes(mimetype, "image") && Includes(mimetype, "video")
    ensures r.Failure? <==> !Includes(mimetype, "image") && !Includes(mimetype, "video")
    ensures r.Failure? ==> r.error == InvalidMediaFormat
  {
    if Includes(mimetype, "image") then Success(ImageRoute)
    else if Includes(mimetype, "video") then Success(VideoRoute)
    else Failure(InvalidMediaFormat)
  }

  /** A 512x512 box; only without cropping is the image contained on a transparent background. */
  function ResizeOptionsFor(crop: bool): (opts: ResizeOptions)
    ensures opts.width == 512 && opts.height == 512
    ensures opts.fit.Some? <==> !crop
    ensures opts.background.Some? <==> !crop
    ensures opts.fit.Some? ==> opts.fit.value == "contain"
    ensures opts.background.Some? ==> opts.background.value.alpha == 0
  {
    var box := ResizeOptions(512, 512, None, None);
    if crop then box
    else box.(fit := Some("contain"), background := Some(Rgba(0, 0, 0, 0)))
  }

  /** Crop to the centred square, then scale it to 300x300. */
  const CropToSquare: string := "crop=w='min(iw,ih)':h='min(iw,ih)',scale=300:300"

  /** Scale to fit inside 300x300 keeping the aspect ratio. */
  const ScaleToFit: string := "scale='iw*min(300/iw,300/ih)':'ih*min(300/iw,300/ih)'"

  /** Pad to 300x300, centred, with fully transparent pixels. */
  const PadToSquare: string := ",format=rgba,pad=300:300:'(300-iw)/2':'(300-ih)/2':'#00000000'"

  /** Square pixels, then the frame rate that follows. */
  const FrameRate: string := ",setsar=1,fps="

  /**
   * The `-vf` filter graph: cropping starts it with a square crop; not
   * cropping scales the frame to fit and pads it to the square box with
   * transparent pixels; both end in `setsar=1,fps=` followed by the
   * requested frame rate.
   */
  function VideoFilter(crop: bool, fps: string): (filter: string)
    ensures |filter| >= |FrameRate + fps|
    ensures filter[|filter| - |FrameRate + fps|..] == FrameRate + fps
    ensures crop ==> |filter| >= |CropToSquare| && filter[..|CropToSquare|] == CropToSquare
    ensures !crop ==> |filter| >= |ScaleToFit| && filter[..|ScaleToFit|] == ScaleToFit && Includes(filter, PadToSquare)
  {
    if crop then
      var filter := CropToSquare + (FrameRate + fps);
      assert filter[..|CropToSquare|] == CropToSquare;
      filter
    else
      var filter := ScaleToFit + PadToSquare + (FrameRate + fps);
      assert filter[..|ScaleToFit|] == ScaleToFit;
      assert filter[|ScaleToFit|..|ScaleToFit| + |PadToSquare|] == PadToSquare;
      assert OccursAt(filter, PadToSquare, |ScaleToFit|);
      filter
  }

  /**
   * `formatImageToWebpSticker(media, crop)`: rejects a non-image, returns a
   * WebP image as it is, and otherwise has sharp resize it into the 512x512
   * box and names the result after the clock.
   */
  function FormatImageToWebpSticker(media: Media, crop: bool, c: Collaborators): (r: Result<Media, MediaError>)
    ensures r == Failure(NotAnImage) <==> !Includes(media.mimetype, "image")
    ensures Includes(media.mimetype, "image") && Includes(media.mimetype, "webp") ==> r == Success(media)
    ensures r.Success? && !Includes(media.mimetype, "webp") ==>
      r.value.mimetype == WebpMimeType && r.value.filename == Decimal(c.now) + ".webp" &&
      c.resize(media.data, ResizeOptionsFor(crop)) == Some(r.value.data)
    ensures r.Failure? ==> r.error == NotAnImage || r.error == ResizeFailed
    ensures Includes(media.mimetype, "image") && !Includes(media.mimetype, "webp") ==>
      (r.Failure? <==> c.resize(media.data, ResizeOptionsFor(crop)).None?)
  {
    if !Includes(media.mimetype, "image") then
      Failure(NotAnImage)
    else if Includes(media.mimetype, "webp") then
      Success(media)
    else
      match c.resize(media.data, ResizeOptionsFor(crop))
      case None => Failure(ResizeFailed)
      case Some(data) => Success(Media(WebpMimeType, data, Decimal(c.now) + ".webp"))
  }

  /**
   * `formatVideoToWebpSticker(media, crop, fps)`: rejects a non-video,
   * otherwise has ffmpeg transcode it, with the input format taken from the
   * MIME subtype, and keeps the file name.
   */
  function FormatVideoToWebpSticker(media: Media, crop: bool, fps: string, c: Collaborators): (r: Result<Media, MediaError>)
    ensures r == Failure(NotAVideo) <==> !Includes(media.mimetype, "video")
    ensures r.Success? ==>
      r.value.mimetype == WebpMimeType && r.value.filename == media.filename &&
      c.transcode(media.data, TranscodeJob(SecondField(media.mimetype, '/'), VideoFilter(crop, fps))) == Some(r.value.data)
    ensures r.Failure? ==> r.error == NotAVideo || r.error == TranscodeFailed
    ensures Includes(media.mimetype, "video") ==>
      (r.Failure? <==> c.transcode(media.data, TranscodeJob(SecondField(media.mimetype, '/'), VideoFilter(crop, fps))).None?)
  {
    if !Includes(media.mimetype, "video") then
      Failure(NotAVideo)
    else
      var job := TranscodeJob(SecondField(media.mimetype, '/'), VideoFilter(crop, fps));
      match c.transcode(media.data, job)
      case None => Failure(TranscodeFailed)
      case Some(data) => Success(Media(WebpMimeType, data, media.filename))
  }

  /**
   * The first half of `formatToWebpSticker`: dispatch and format. The
   * formatters' own type checks can never fail behind the dispatch, and what
   * comes out is always a WebP image.
   */
  function ConvertMedia(media: Media, crop: bool, fps: string, c: Collaborators): (r: Result<Media, MediaError>)
    ensures Dispatch(media.mimetype).Failure? ==> r == Failure(InvalidMediaFormat)
    ensures Dispatch(media.mimetype) == Success(ImageRoute) ==> r == FormatImageToWebpSticker(media, crop, c)
    ensures Dispatch(media.mimetype) == Success(VideoRoute) ==> r == FormatVideoToWebpSticker(media, crop, fps, c)
    ensures r.Failure? ==> r.error in {InvalidMediaFormat, ResizeFailed, TranscodeFailed}
    ensures r.Success? ==> Includes(r.value.mimetype, "image") && Includes(r.value.mimetype, "webp")
  {
    WebpMimeTypeIsWebpImage();
    match Dispatch(media.mimetype)
    case Failure(e) => Failure(e)
    case Success(ImageRoute) => FormatImageToWebpSticker(media, crop, c)
    case Success(VideoRoute) => FormatVideoToWebpSticker(media, crop, fps, c)
  }

  /**
   * JavaScript truthiness of a string property that may be `undefined`
   * (`Defaults.Truthy` is the same rule over arbitrary values): only
   * `undefined` and `""` are falsy.
   */
  predicate TruthyString(s: Option<string>)
  {
    s.Some? && s.value != ""
  }

  /**
   * `metadata.name || metadata.author`: a non-empty name or a non-empty
   * author alone is enough; with both undefined or empty nothing is written.
   */
  predicate WantsMetadata(metadata: StickerMetadata): (r: bool)
    ensures metadata.name.Some? && metadata.name.value != "" ==> r
    ensures metadata.author.Some? && metadata.author.value != "" ==> r
    ensures metadata.name in {None, Some("")} && metadata.author in {None, Some("")} ==> !r
  {
    TruthyString(metadata.name) || TruthyString(metadata.author)
  }

  /**
   * The keys `JSON.stringify` writes for a document, in order: `undefined`
   * ones are dropped. This documents the serialization; the bytes themselves
   * come from the `stringify` collaborator, which this list does not constrain.
   */
  function JsonKeys(doc: StickerJson): (keys: seq<string>)
    ensures |keys| >= 2 && keys[0] == "sticker-pack-id" && keys[|keys| - 1] == "emojis"
  {
    ["sticker-pack-id"]
    + (if doc.packName.Some? then ["sticker-pack-name"] else [])
    + (if doc.publisher.Some? then ["sticker-pack-publisher"] else [])
    + ["emojis"]
  }

  /**
   * The JSON document for a pack: the given name and author as they are
   * (absent ones stay absent), and the categories, or `[""]` when there are none.
   */
  function StickerDocument(metadata: StickerMetadata, packId: string): (doc: StickerJson)
    ensures doc.packId == packId
    ensures doc.packName == metadata.name && doc.publisher == metadata.author
    ensures doc.emojis == if metadata.categories.Some? then metadata.categories.value else [""]
    ensures "sticker-pack-name" in JsonKeys(doc) <==> metadata.name.Some?
    ensures "sticker-pack-publisher" in JsonKeys(doc) <==> metadata.author.Some?
  {
    var emojis := match metadata.categories
      case Some(categories) => categories
      case None => [""];
    StickerJson(packId, metadata.name, metadata.author, emojis)
  }

  /** The pack document with a fresh 32-character id drawn from `random`. */
  function PackDocument(metadata: StickerMetadata, random: nat -> real): (doc: StickerJson)
    requires Hash.IsRandomSource(random)
  {
    StickerDocument(metadata, Hash.Drawn(32, random))
  }

  /**
   * The second half of `formatToWebpSticker`: serialize the pack document,
   * build the EXIF blob for it and attach that blob to `media`. It fails
   * with the range error exactly when the JSON is 2^32 bytes or longer, and
   * otherwise exactly when the container library cannot load the sticker.
   */
  function EmbedMetadata(media: Media, metadata: StickerMetadata, c: Collaborators): (r: Result<Media, MediaError>)
    requires Hash.IsRandomSource(c.random)
    ensures var json := c.stringify(PackDocument(metadata, c.random));
      (r == Failure(ValueOutOfRange) <==> |json| >= Exif.TwoTo32) &&
      (|json| < Exif.TwoTo32 ==> (r.Failure? <==> c.attachExif(media.data, Exif.ExifChunk(json)).None?)) &&
      (r.Success? ==> |json| < Exif.TwoTo32 && c.attachExif(media.data, Exif.ExifChunk(json)) == Some(r.value.data))
    ensures r.Success? ==> r.value == media.(data := r.value.data)
    ensures r.Failure? ==> r.error in {ValueOutOfRange, ContainerFormatError}
  {
    var json := c.stringify(PackDocument(metadata, c.random));
    if |json| >= Exif.TwoTo32 then
      Failure(ValueOutOfRange)
    else
      match c.attachExif(media.data, Exif.ExifChunk(json))
      case None => Failure(ContainerFormatError)
      case Some(data) => Success(media.(data := data))
  }

  /**
   * What the embedding attaches is exactly the blob built from the JSON of
   * the pack document, whose id is 32 letters and digits; that blob reads
   * back as the JSON, and nothing but the data changes.
   */
  lemma {:induction false} EmbedMetadataAttachesDocument(media: Media, metadata: StickerMetadata, c: Collaborators)
    requires Hash.IsRandomSource(c.random)
    ensures var doc := PackDocument(metadata, c.random);
      |doc.packId| == 32 && (forall ch :: ch in doc.packId ==> Hash.IsAlphanumeric(ch)) &&
      doc.packName == metadata.name && doc.publisher == metadata.author
    ensures var json := c.stringify(PackDocument(metadata, c.random));
      |json| < Exif.TwoTo32 ==> Exif.ReadExifChunk(Exif.ExifChunk(json)) == Some(json)
    ensures EmbedMetadata(media, metadata, c).Success? ==>
      var out := EmbedMetadata(media, metadata, c).value;
      var json := c.stringify(PackDocument(metadata, c.random));
      out.mimetype == media.mimetype && out.filename == media.filename &&
      |json| < Exif.TwoTo32 && c.attachExif(media.data, Exif.ExifChunk(json)) == Some(out.data) &&
      Exif.ReadExifChunk(Exif.ExifChunk(json)) == Some(json)
  {
    var json := c.stringify(PackDocument(metadata, c.random));
    if |json| < Exif.TwoTo32 {
      Exif.ReadExifChunkRoundTrip(json);
    }
  }

  /**
   * `formatToWebpSticker(media, metadata, crop, fps)`: dispatch and format,
   * then, only when a name or author is given, draw a 32-character pack id,
   * build the EXIF blob and attach it.
   */
  method FormatToWebpSticker(media: Media, metadata: StickerMetadata, c: Collaborators, crop: bool := false, fps: string := "10")
    returns (r: Result<Media, MediaError>)
    requires Hash.IsRandomSource(c.random)
    ensures Dispatch(media.mimetype).Failure? ==> r == Failure(InvalidMediaFormat)
    ensures ConvertMedia(media, crop, fps, c).Failure? ==> r == ConvertMedia(media, crop, fps, c)
    ensures !WantsMetadata(metadata) ==> r == ConvertMedia(media, crop, fps, c)
    ensures WantsMetadata(metadata) && ConvertMedia(media, crop, fps, c).Success? ==>
      r == EmbedMetadata(ConvertMedia(media, crop, fps, c).value, metadata, c)
    ensures r.Success? ==> Includes(r.value.mimetype, "image") && Includes(r.value.mimetype, "webp")
    ensures r.Failure? ==> r.error !in {NotAnImage, NotAVideo}
  {
    var converted := ConvertMedia(media, crop, fps, c);
    if converted.Failure? {
      return converted;
    }
    var webpMedia := converted.value;
    if !WantsMetadata(metadata) {
      return converted;
    }
    var hash := Hash.GenerateHash(32, c.random);
    var doc := StickerDocument(metadata, hash);
    assert doc == PackDocument(metadata, c.random);
    var jsonBuffer := c.stringify(doc);
    var built := Exif.BuildExif(jsonBuffer);
    if built.Failure? {
      r := Failure(ValueOutOfRange);
    } else {
      assert built.value == Exif.ExifChunk(jsonBuffer);
      match c.attachExif(webpMedia.data, built.value)
      case None =>
        r := Failure(ContainerFormatError);
        assert r == EmbedMetadata(webpMedia, metadata, c);
      case Some(data) =>
        r := Success(webpMedia.(data := data));
        assert r == EmbedMetadata(webpMedia, metadata, c);
    }
  }
}
