# Bot-Toki sticker helpers, modelled in Dafny

Bot-Toki is a WhatsApp chat bot. This project models the deterministic logic inside its helpers:

- `Util.formatToWebpSticker` turns an image or a video into a WebP sticker. It dispatches on the MIME type and chooses the resize options or the ffmpeg filter graph from the `crop` flag. When a pack name or author is given, it attaches an EXIF blob. That blob starts with the 8-byte little-endian image file header of TIFF Revision 6.0, section 2, and a directory with one 12-byte entry (tag 0x5741, type 7 UNDEFINED). The directory lacks the 4-byte next-directory offset that section 2 places after the entries. The pack's UTF-8 JSON document starts at byte 22, where that offset would be, and the entry's count field holds the document's length.
- `Util.generateHash` draws the 32-character pack id from a 62-character alphabet.
- `Util.mergeDefault` fills the missing options of a configuration object from a tree of defaults.
- `adminsGroup` (utilitarios.js) tells whether a user is an admin of a group, using the first participant with the user's id.

The modules are:

- `Wrappers`: `Option` and `Result`.
- `Text`: `String.prototype.includes`, `split("/")[1]` and decimal rendering, as the formatters use them.
- `Hash`: `generateHash`, a loop over draws of a random oracle.
- `Defaults`: `mergeDefault`. Values are `Undefined | Prim | Obj(map)`. The caller's object is a `ConfigObject` whose property map the method updates in place.
- `Exif`: the EXIF blob. `BuildExif` builds it in an array. It copies the header and the JSON into one buffer, then writes the length into offsets 14..17 byte by byte, as `Buffer.concat` and `writeUIntLE` do. `ReadExifChunk` is an independent reader of the blob.
- `Sticker`: the dispatch, the two formatters, the pack document and `formatToWebpSticker` itself. sharp, ffmpeg, node-webpmux, `JSON.stringify` and `Math.random` are passed in as functions, and the clock's reading as a number (`Collaborators`).
- `Utilitarios`: `adminsGroup`.

In these corner cases the code behaves as follows, and so does the model:

- When only a name is given, the JSON has no `sticker-pack-publisher` key at all, and likewise with the roles swapped. `JSON.stringify` drops keys whose value is `undefined`, so the missing field is not an empty string. `StickerDocument` keeps the absent field as `None`, and `JsonKeys` lists only the keys that are written.
- `metadata.name || metadata.author` tests truthiness. An empty name together with an empty author therefore writes no metadata. An empty name next to a non-empty author is written as `""`.
- `categories` defaults to `[""]` when it is falsy. An explicit empty list is kept, because an array is truthy.
- The crop filter's `\,` inside a JavaScript template literal evaluates to a plain `,`. `CropToSquare` therefore holds plain commas.

## Model

| member | source | states |
|---|---|---|
| `Text.Includes` | function/Util.js:61-64 | `s.includes(sub)` holds exactly when `sub` occurs at some position of `s` |
| `Text.SecondField` | function/Util.js:105 | `split("/")[1]` is absent exactly when there is no `/`; otherwise it is the slash-free text after the first `/`, up to the next `/` or the end |
| `Text.FieldOf` | function/Util.js:105 | the field after the first `/` is the longest `/`-free prefix of the rest: it ends at the next `/` or at the end |
| `Text.SecondFieldUnique` | function/Util.js:105 | conversely, any reading of the MIME type as prefix, `/`, slash-free field and a rest that is empty or starts with `/` gives that field |
| `Text.Decimal` | function/Util.js:91 | the timestamp in the file name is a non-empty string of digits with no leading zero, and those digits read back as the timestamp |
| `Hash.AlphabetLayout` | function/Util.js:25-26 | the alphabet literal is A-Z, then a-z, then 0-9 |
| `Hash.AlphabetIsAlphanumeric` | function/Util.js:25-27 | the alphabet has 62 characters, all distinct, and they are exactly the ASCII letters and digits |
| `Hash.Pick` | function/Util.js:29 | `Math.floor(Math.random() * 62)` is a valid alphabet index |
| `Hash.Drawn` | function/Util.js:23-32 | the hash selected by the draws has the requested length and only letters and digits |
| `Hash.GenerateHash` | function/Util.js:23-32 | the loop returns `length` characters (none for a non-positive length); character i is the alphabet entry that draw i selects; all are letters or digits |
| `Defaults.Truthy` | function/Util.js:42 | a value is truthy exactly when it is none of JavaScript's falsy values `undefined`, `null`, `false`, `0` and `""` |
| `Defaults.MergeProps` | function/Util.js:43-49 | the merged object has the given keys plus the default keys. A key that is missing or `undefined` gets its default. A key set to a primitive keeps its value. An object-valued key is merged recursively with the matching default. Keys the defaults do not mention are untouched |
| `Defaults.MergeDefault` | function/Util.js:41-52 | a falsy `given` yields `def` itself; an object yields the object whose properties are `MergeProps` of its own, so it has the keys of both |
| `Defaults.MergeIntoSelf` | function/Util.js:43-49 | merging a default tree into a copy of itself changes nothing |
| `Defaults.MergeIdempotent` | function/Util.js:41-52 | merging the same defaults a second time changes nothing |
| `Defaults.MergeFillsDefaults` | function/Util.js:44-45 | after the merge, a key with a default is `undefined` exactly when its default is `undefined` and the caller left it unset |
| `Defaults.ConfigObject.MergeDefault` | function/Util.js:41-52 | the in-place loop over the default keys leaves the object's properties equal to `MergeProps` of the old ones, and returns the same object |
| `Exif.ReadWriteUInt32LE` | function/Util.js:208 | reading back the 4-byte little-endian field gives the length written |
| `Exif.WriteReadUInt32LE` | function/Util.js:208 | writing the number read from any 4 bytes gives back those bytes, so the field encoding is a bijection |
| `Exif.ExifChunk` | function/Util.js:202-208 | the blob is the header with its count bytes 14..17 replaced by the JSON length, followed by the JSON |
| `Exif.ExifChunkLayout` | function/Util.js:202-208 | the blob is 22 + L bytes long and carries the JSON from offset 22. Offsets 14..17 hold L as unsigned 32-bit little-endian. The other header bytes are the constants: `II*\0`, IFD offset 8, one entry, tag 0x5741, type 7, and value offset 22 |
| `Exif.ReadExifChunk` | function/Util.js:202-208 | an accepted blob holds at least 22 bytes plus the JSON it yields |
| `Exif.ReadExifChunkRoundTrip` | function/Util.js:202-208 | a reader that checks the fixed header and follows the count recovers exactly the JSON bytes |
| `Exif.ReadExifChunkExact` | function/Util.js:202-208 | a blob the reader accepts with nothing left over is exactly the blob built from the JSON read |
| `Exif.Concat` | function/Util.js:207 | `Buffer.concat` returns a fresh buffer holding the header bytes followed by the JSON bytes |
| `Exif.WriteUInt32LE` | function/Util.js:208 | `writeUIntLE(value, offset, 4)` succeeds exactly when the value is below 2^32. It then replaces bytes offset..offset+3 by the little-endian field and leaves every other byte as it was. A larger value is a range error and changes nothing |
| `Exif.BuildExif` | function/Util.js:202-208 | concatenating and then writing the length in place yields the specified blob; a length of 2^32 or more raises the range error |
| `Sticker.WebpMimeTypeIsWebpImage` | function/Util.js:89 | `image/webp` contains both `image` and `webp` |
| `Sticker.Dispatch` | function/Util.js:183-187 | `image` anywhere in the MIME type takes the image path even when `video` also occurs; otherwise `video` takes the video path; otherwise "Invalid media format" |
| `Sticker.ResizeOptionsFor` | function/Util.js:75-82 | the box is always 512x512; `fit: "contain"` and a background with alpha 0 are set exactly when not cropping |
| `Sticker.VideoFilter` | function/Util.js:120-126 | cropping starts the graph with the square crop; otherwise it starts by scaling to fit and contains the transparent pad to 300x300; both end in `,setsar=1,fps=` and the requested frame rate |
| `Sticker.FormatImageToWebpSticker` | function/Util.js:60-93 | a non-image is rejected and only then. A WebP image is returned unchanged. Any other image becomes `image/webp` data from the resizer, called with the crop-dependent options, named `<timestamp>.webp`. It fails exactly when the resizer does. The only errors are the type check and the resizer's |
| `Sticker.FormatVideoToWebpSticker` | function/Util.js:101-163 | a non-video is rejected and only then. Otherwise the result is `image/webp` data from the transcoder with the original file name. The transcoder is called with the MIME subtype as input format and the crop-dependent filter, and the formatter fails exactly when the transcoder does |
| `Sticker.ConvertMedia` | function/Util.js:180-187 | the route chosen by dispatch decides which formatter runs. The formatters' own type checks never fail behind the dispatch. Every success is a WebP image |
| `Sticker.WantsMetadata` | function/Util.js:189 | a non-empty name or a non-empty author alone is enough to write metadata; with both undefined or empty nothing is written |
| `Sticker.JsonKeys` | function/Util.js:196-201 | the keys `JSON.stringify` writes for the document start with `sticker-pack-id` and end with `emojis` (the bytes come from the `stringify` collaborator and are not tied to this list) |
| `Sticker.StickerDocument` | function/Util.js:193-201 | the document carries the id, the name and the author as given (an absent one stays absent, and so does its key), and the categories or `[""]` when none are given |
| `Sticker.EmbedMetadata` | function/Util.js:189-211 | it fails with the range error exactly when the JSON is 2^32 bytes or longer; otherwise it fails exactly when the container library cannot load the sticker, and a success carries the data the library returns after attaching exactly `ExifChunk(json)`. Only the media's data changes |
| `Sticker.EmbedMetadataAttachesDocument` | function/Util.js:189-211 | the pack id is 32 letters or digits. The blob built from the pack document's JSON reads back as that JSON, and on success it is exactly that blob that is attached. Only the data of the media changes |
| `Sticker.FormatToWebpSticker` | function/Util.js:180-215 | `crop` defaults to `false` and `fps` to `"10"`. An unknown media type fails with "Invalid media format", and conversion errors propagate. Without a truthy name or author the converted media is returned as is. Otherwise the result is the converted media with the EXIF blob for the pack document attached. Every success is a WebP image, and the per-formatter type errors never escape |
| `Utilitarios.FindParticipant` | utilitarios.js:3 | `find` yields nothing exactly when no participant has the id; otherwise the first index with that id |
| `Utilitarios.AdminsGroup` | utilitarios.js:2-7 | the result is `false` when nobody has the id. Otherwise it is true exactly when the first participant with the id is an admin |
| `Utilitarios.AdminsGroupIgnoresLater` | utilitarios.js:3 | appending participants after a match never changes the answer |
| `Utilitarios.AdminsGroupOnlyMatchesMatter` | utilitarios.js:3-6 | dropping every participant with another id never changes the answer, which is the `isAdmin` of the first match |

`adminsGroup` is a pure function of its arguments, so the participants list it reads is never modified.

## Left out

- The image library's resize and WebP encoding (function/Util.js:83-85): a collaborator function `resize`; its failure is `ResizeFailed`.
- The ffmpeg transcode, its output options and its events (function/Util.js:127-153): a collaborator function `transcode`; its failure is `TranscodeFailed`. The `-s 512:512`, loop, duration and codec options are not modelled. The output size is therefore not claimed either.
- The temporary file of the video path (function/Util.js:107-110, 155-156), including its random name, `readFile` and `unlink`. This is file-system I/O, folded into `transcode`. The code deletes the file only after a successful transcode, so no cleanup is claimed on the error path.
- Base64 decoding and the removal of the `data:<mime>;base64,` prefix (function/Util.js:68-72, 112-118): the collaborators receive `media.data` as it is.
- node-webpmux `load`/`exif`/`save` (function/Util.js:209-211): a collaborator function `attachExif`; a load failure is `ContainerFormatError`.
- `JSON.stringify` and UTF-8 encoding (function/Util.js:206): a collaborator function `stringify` from the document to bytes.
- `Math.random` (function/Util.js:29): an oracle of draws in [0, 1), computed over exact reals. Its distribution and its floating-point product with 62 are not modelled.
- The clock (function/Util.js:91): a number passed in.
- Promise sequencing of the asynchronous formatters is not modelled; each step runs to completion in order.
- `setFfmpegPath` (function/Util.js:221-223), a library call, and the constructor that forbids instantiating `Util` (function/Util.js:17-21) are not modelled.
- function/banner.js only renders terminal text through a library; it is not part of this model.
- Sticker.FormatToWebpSticker: when a WebP image passes through unchanged and metadata is attached, the source overwrites `data` on the caller's own media object. The model returns a new value and does not capture that aliasing.
- Defaults.MergeDefault: requires `given` to be an object or falsy. The source documents `given` as an object. For a truthy primitive the loop reads and assigns properties of the primitive: it returns the primitive unchanged when `def` has no key the primitive lacks, and otherwise the assignment throws in strict mode. Neither case is modelled.
- Defaults.DefaultKeys: a string default enumerates no keys here, while `for…in` over a string visits its character indices. Inherited enumerable properties and prototype lookups of `has` are not modelled either.
- Defaults.ConfigObject.MergeDefault: nested objects are values, so the recursive call's in-place update of a nested object is a replacement. Default subtrees that JavaScript shares by reference with the result are copies here.
- `crop` is a boolean here; the source tests any value for truthiness (function/Util.js:79, 121), so a truthy non-boolean crops like `true`.
- `categories` is either absent or a list of strings; the other falsy values (`null`, `false`, `0`, `""`) default to `[""]` in the source just as absence does, and are not modelled. Likewise `name` and `author` are absent or strings.
- Numbers in `Defaults` are integers; `NaN` and fractions, whose truthiness follows the same rule, are not modelled.
- Utilitarios.AdminsGroup: ids are compared as strings; the loose `==` coercion between a non-string `userNumber` and an id is not modelled, and `isAdmin` is a boolean.
- Bytes are integers in 0..255 rather than bit-vectors, which keeps the arithmetic of the length field cheap to prove.
