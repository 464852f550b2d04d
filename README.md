# A verified model of the early-draft QOI codec in Go

This project models the codec of Zyl9393/qoi. It is a Go port of an early, pre-1.0 draft of
the "Quite OK Image" format. The draft layout is:

- a 12-byte little-endian header: the magic `qoif`, then a 16-bit width, a 16-bit height and
  a 32-bit size field;
- a stream of seven chunk kinds: INDEX, RUN_8, RUN_16, DIFF_8, DIFF_16, DIFF_24 and COLOR;
- four zero bytes of padding.

Both sides keep a 64-slot cache of pixels, indexed by `(r ^ g ^ b ^ a) % 64`.

The model covers three files:

- `qoi.go`: the hash, `Decode` and `Encode`.
- `image.go`: the package's own `Image`, with `Bounds`, `At` and the colorspace constants.
- `util.go`: `isOpaqueImage`.

Bytes are the integers 0 to 255 (`Bytes.byte`). Go's `byte(...)` conversion is `Byte(x) = x % 256`.
A pixel is an RGBA 4-tuple of bytes. An image handed to the encoder is its raster-order sequence
of pixels. The encoded stream is a `seq<byte>`.

How the codec is split into modules:

- **`Chunks`**: the chunk layer, written as pure functions.
  - `ReadChunk` decodes one chunk at a read position.
  - `DeltaChunk` and `RunChunk` pack the encoder's chunks.
  - Lemmas prove that the decoder reads each packing back.
- **`Decoder`**: the decode loop.
  - `DecodeBody` and `DecodeImage` specify it one loop pass at a time.
  - The methods `Decode`, `DecodePixels` and `DecodePass` run that loop over a 64-entry cache
    `array` and the `Pix` `array`. Each is proved equal to the specification.
- **`Encoder`**: the encode loop.
  - `EncodePixel` is one pass of the inner loop. `EncodeRange` is the state after the first `i`
    pixels. `EncodeImage` is the finished file.
  - The method `Encode` runs the nested row/column loops over a cache `array`, appends to the
    output and patches the size field. It is proved to return `EncodeImage`.
- **`RoundTrip`**: proves that decoding what the encoder wrote gives the image back.
- **`Findings`**: concrete bytes on which the code as written does not round-trip.
- **`Images`**: `image.go`.
- **`Opacity`**: `util.go`.

Two places in the code do not do what the format needs (see "## Findings"). Every function that
they touch takes a `Revision` argument:

- `AsWritten` is the code exactly as it is in the repository. The `Decode` and `Encode` methods
  use it.
- `Corrected` repairs those two places. The whole-image round trip of `qoi_test.go` is proved
  for it.

### Where the code and the published QOI specification differ

The published QOI specification (version 1.0, 2022) gives the final layout. That layout has:

- a 14-byte big-endian header with channel and colorspace bytes;
- DIFF, LUMA, RUN and literal RGB/RGBA tags;
- the hash `r*3 + g*5 + b*7 + a*11`;
- the run limit 62;
- an 8-byte end marker.

The Go code implements none of these. It has the draft layout above, the XOR hash and runs up
to 0x2020, and it always decodes to 4 bytes per pixel. The model follows the code throughout.

The decoder writes its cache only after it reads a chunk: qoi.go:183 sits in the `else`
branch of `if run > 0`, so a pass that only repeats a pending run leaves the cache alone.
`Decoder.NextPass` does the same.

## Model

| member | source | states |
|---|---|---|
| Bytes.LittleEndian16 | qoi.go:206-207 | the two bytes written for a `uint16` field hold the value mod 65536, low byte first |
| Bytes.ReadLittleEndian16 | qoi.go:82-83 | a little-endian 16-bit field read from the stream is below 65536 |
| Bytes.ReadLittleEndian32 | qoi.go:84 | a little-endian 32-bit field read from the stream is below 2^32 |
| Bytes.LittleEndian16RoundTrip | qoi.go:82-83 | reading back two bytes written by `LittleEndian16` gives the value mod 65536 |
| Pixels.XorZero | qoi.go:59-61 | bitwise XOR with 0 is the identity, on either side |
| Pixels.Slot | qoi.go:183 | the cache slot of a pixel, its hash mod 64, is below 64 |
| Pixels.BlackHash | qoi.go:59-61 | a pixel with r = g = b = 0 hashes to its alpha |
| Pixels.StartSlot | qoi.go:93 | the starting pixel (0,0,0,255) lives in cache slot 63 |
| Pixels.BlankSlot | qoi.go:88 | the zero pixel lives in cache slot 0 |
| Pixels.Flatten | qoi.go:187-188 | the `Pix` buffer of a pixel sequence holds four bytes per pixel |
| Pixels.FlattenAt | qoi.go:187 | bytes 4i to 4i+3 of the buffer are pixel i's r, g, b, a |
| Pixels.FlattenAppend | qoi.go:187-188 | the buffer of two sequences joined is the two buffers joined |
| Chunks.Classify | qoi.go:107-181 | each of the seven tags claims exactly its range of first bytes; the ranges cover all 256 values, so the magenta `default` branch is unreachable |
| Chunks.ChunkSize | qoi.go:107-178 | every chunk is 1 to 5 bytes long |
| Chunks.ColorFlag | qoi.go:151-177 | each of the four COLOR mask bits is 0 or 1 |
| Chunks.ColorPayload | qoi.go:150-178 | a COLOR chunk carries at most four bytes after its tag |
| Chunks.Run16Count | qoi.go:119 | as written, the RUN_16 count is `(b2 + 32) % 256`, because the byte shift drops the high bits; corrected, it is `(b1 & 0x1f) * 256 + b2 + 32` |
| Chunks.ReadField | qoi.go:151-177 | a flagged COLOR byte is read, or is missing at end of input; an unflagged channel keeps its value and consumes nothing |
| Chunks.ReadColor | qoi.go:150-178 | a COLOR chunk fails exactly when fewer bytes remain than its mask announces; otherwise it consumes exactly those bytes and starts no run |
| Chunks.ReadChunk | qoi.go:99-181 | end of input exactly at a tag byte is `AtEnd`; a chunk cut short is `Cut` exactly when its size overruns the input; INDEX gives the cached slot; RUN_8 gives the current pixel and its count; a chunk that starts a run keeps the pixel |
| Chunks.Delta | qoi.go:247-251 | as written, the delta `(cur*257 - prev*257) >> 8` is `cur - prev` when it is not negative and `cur - prev - 1` when it is; corrected, it is `cur - prev` |
| Chunks.IfChanged | qoi.go:280-291 | a channel byte is written exactly when its mask bit is set |
| Chunks.DeltaChunk | qoi.go:253-291 | the delta or COLOR chunk for a pixel is 1 to 5 bytes long |
| Chunks.RunChunk | qoi.go:227-233 | a run below 33 takes one byte, a longer one takes two |
| Chunks.RunChunkFields | qoi.go:227-233 | a run below 33 is one RUN_8 byte holding `run - 1` in 0..31; a longer run is a RUN_16 pair holding `run - 33`, at most 0x1FFF |
| Chunks.RunChunkDecodes | qoi.go:111-119 | the decoder reads a run chunk as the current pixel plus `run - 1` repeats exactly when the code is corrected or the run is at most 256; as written, a longer run gets `((run - 33) % 256 + 32) % 256` repeats |
| Chunks.IndexChunkDecodes | qoi.go:108-109 | an INDEX byte naming the slot that holds `q` decodes to `q` |
| Chunks.Diff8Decodes | qoi.go:121-124 | the decoder adds back the three 2-bit deltas that the DIFF_8 byte packs (qoi.go:256) |
| Chunks.Diff8Fields | qoi.go:256 | the fields of a DIFF_8 byte are the biased deltas |
| Chunks.Diff16Decodes | qoi.go:126-133 | the decoder adds back the 5- and 4-bit deltas that the DIFF_16 pair packs (qoi.go:258-259) |
| Chunks.Diff24Decodes | qoi.go:135-148 | the decoder adds back the four 5-bit deltas that the DIFF_24 triple packs (qoi.go:261-263) |
| Chunks.Diff24Fields | qoi.go:261-263 | unpacking the three DIFF_24 bytes gives the four biased deltas |
| Chunks.Diff24Rebuilt | qoi.go:145-148 | adding the unpacked DIFF_24 fields to the previous pixel rebuilds the delta-applied pixel |
| Chunks.ColorChunkDecodes | qoi.go:150-178 | the decoder reads the COLOR chunk that qoi.go:266-291 writes back as the changed channels, in r, g, b, a order |
| Chunks.DeltaChunkDecodes | qoi.go:121-178 | whichever delta or COLOR chunk the encoder picks, the decoder rebuilds the pixel from the previous one and the deltas, and consumes exactly that chunk |
| Chunks.CorrectedDeltasRebuild | qoi.go:248-251 | with corrected deltas, adding them back to the previous pixel gives the pixel |
| Chunks.AsWrittenDeltasRebuild | qoi.go:248-251 | with the deltas as written, adding them back gives the pixel exactly when the COLOR chunk is chosen or no channel falls |
| Decoder.ReadU16 | qoi.go:82-83 | a 16-bit field is read as two bytes; a short read leaves the reader at the end of the input |
| Decoder.ReadU32 | qoi.go:84 | a 32-bit field is read as four bytes; a short read leaves the reader at the end of the input |
| Decoder.ReadHeader | qoi.go:74-84 | empty input is `Eof`; 1 to 3 bytes is `UnexpectedEof`; a wrong magic is "bad header"; otherwise the width, height and size are the little-endian fields, and decoding goes on from byte 12 |
| Decoder.NextPass | qoi.go:95-183 | one loop pass either moves the read position forwards within the input or stops; it stops with success only at end of input |
| Decoder.DecodeBody | qoi.go:94-189 | the loop yields at most `n` pixels and fewer only when the input ran out at a tag byte; with no run pending, input that ends where a tag is due stops the loop with no further pixels and no error (qoi.go:101-102), and a chunk cut short makes the whole loop fail (qoi.go:115-117 and the other `ReadByte` checks) |
| Decoder.PassThen | qoi.go:94-189 | the loop is one pass followed by the loop on one pixel fewer |
| Decoder.DecodeImage | qoi.go:63-191 | a decoded image holds `4 * width * height` bytes; the width and height are the header's; the header errors are exactly those of `ReadHeader` |
| Decoder.Assemble | qoi.go:86-190 | the result is an error exactly when a chunk was cut short, and that error is `io.EOF`; a finished loop gives an image of the header's width and height whose `4 * width * height` bytes start with the decoded pixels and are zero after them |
| Decoder.DecodePass | qoi.go:95-183 | the loop body over the 64-entry cache array computes exactly `NextPass`, leaves the array equal to the new cache after a pixel, and leaves it untouched when the loop stops |
| Decoder.Decode | qoi.go:63-191 | the decoder method returns exactly `DecodeImage` of its input, as written |
| Decoder.DecodePixels | qoi.go:88-189 | the loop over the `Pix` array succeeds exactly when `DecodeBody` does, and then leaves the decoded pixels followed by zeros in the array |
| Decoder.Advance | qoi.go:95-188 | one pass computes `NextPass` and, on a pixel, copies it after the pixels already written; a pass that stops changes neither the cache nor the buffer |
| Decoder.CopyPixel | qoi.go:187-188 | copying `px` into the next four bytes of `Pix` extends the written prefix by that pixel |
| Decoder.FinishedEarly | qoi.go:101-102 | once the loop has stopped at the end of input, what it yields is exactly the pixels emitted before the stop |
| Decoder.DecodeStep | qoi.go:99-188 | with no run pending, the loop emits the chunk's pixel, caches it, and continues from after the chunk with the run the chunk started |
| Decoder.RunIterations | qoi.go:95-96 | a pending run of `k` emits the current pixel `k` times without reading input or touching the cache |
| Encoder.Header | qoi.go:205-209 | the header starts with the magic and ends with a zero size field, 12 bytes in all |
| Encoder.PixelChunk | qoi.go:239-294 | a changed pixel is written as an INDEX byte exactly when its cache slot already holds it |
| Encoder.Counted | qoi.go:221-235 | the run counter after the flush check: a repeat adds one to it, wrapping to 0 when it reaches 0x2020; after a changed pixel or the last pixel none is pending; `px_prev` and the cache are untouched |
| Encoder.Emitted | qoi.go:237-297 | `px` becomes `px_prev` and the run is kept; a changed pixel is stored in its cache slot; a repeated pixel leaves the cache and the output as they were |
| Encoder.EncodePixel | qoi.go:220-297 | one pass leaves `px` as `px_prev`, caches a changed pixel, leaves no run after a change or the last pixel, and only appends to the output |
| Encoder.EncodeRange | qoi.go:218-299 | after every pixel the run is below 0x2020, and after the last one no run is pending |
| Encoder.Patched | qoi.go:301 | patching the size changes only bytes 8 and 9, which then hold the length after the header mod 65536 |
| Encoder.EncodeImage | qoi.go:193-306 | the file ends in four zero bytes of padding |
| Encoder.Layout | qoi.go:205-209 | the file is the magic, the fields, the chunks and the padding |
| Encoder.EncodeImageLayout | qoi.go:300-301 | the encoded file is the header, the chunks after the header, and the padding |
| Encoder.PatchedLayout | qoi.go:300-301 | padding the buffer and patching its size gives that layout |
| Encoder.HeaderReadsBack | qoi.go:206-209 | the header fields read back as the width and height mod 65536 and the length after the header |
| Encoder.InitialCached | qoi.go:214-215 | at the start the cache keeps the invariant for `px_prev`: its slot, 63, holds the zero pixel, which hashes to slot 0, so it holds no other pixel of slot 63 |
| Encoder.PassInvariant | qoi.go:237-245 | each pass keeps the invariant: the slot of the new `px_prev` holds it, unless it holds a pixel that hashes elsewhere; the run either resets or grows by one on a repeat |
| Encoder.RangeInvariant | qoi.go:218-298 | the pending run is exactly the last `run` pixels, all equal to `px_prev`, which is the last pixel seen |
| Encoder.OutputGrows | qoi.go:218-299 | the encoder only appends to its output |
| Encoder.HeaderKept | qoi.go:205-209 | the first 12 bytes stay the header until the size fix-up |
| Encoder.Encode | qoi.go:193-306 | the encoder method returns exactly `EncodeImage` of its image, as written |
| Encoder.Finish | qoi.go:300-301 | padding and patching the buffer gives `Patched` |
| Encoder.EncodeRow | qoi.go:219-298 | one row of the inner loop takes the cache array, `px_prev`, run and output from the state before the row to the state after it |
| Encoder.EncodeOne | qoi.go:220-297 | one pass over the cache array computes exactly `EncodePixel` |
| Encoder.FlushRun | qoi.go:226-235 | a due run is written as `RunChunk` and reset; otherwise nothing changes |
| Encoder.WritePixel | qoi.go:239-294 | a changed pixel is cached in its slot, and its chunk is appended to the output |
| Encoder.WriteDeltas | qoi.go:247-292 | the delta or COLOR chunk for the deltas as written is appended |
| Encoder.WriteColor | qoi.go:266-291 | the COLOR mask byte, then the changed channel bytes in r, g, b, a order, are appended |
| RoundTrip.CountShape | qoi.go:221-235 | a repeat that does not make the run flush appends nothing and only adds one to the run |
| RoundTrip.FlushShape | qoi.go:221-235 | a repeat that makes the run flush appends exactly the RUN chunk of the run including it, and leaves no run pending |
| RoundTrip.ChangeShape | qoi.go:226-297 | a changed pixel appends the pending run's chunk, if any, then the pixel's INDEX, DIFF or COLOR chunk, caches the pixel and leaves no run pending |
| RoundTrip.AgreesCached | qoi.go:183 | caching the same pixel on both sides, at qoi.go:183 and qoi.go:245, keeps the two caches in agreement |
| RoundTrip.AgreesAfterRun | qoi.go:183 | the decoder caching a run pixel that the encoder already holds keeps the caches in agreement |
| RoundTrip.RunDecodes | qoi.go:111-119 | corrected, a flushed run of `r` decodes to `r` copies of the previous pixel, followed by the rest |
| RoundTrip.PixelDecodes | qoi.go:107-183 | corrected, a written pixel's chunk decodes to that pixel and caches it, followed by the rest |
| RoundTrip.Resumes | qoi.go:218-298 | corrected, from any point of the encode loop, the chunks still to be written decode to the pending run followed by the remaining pixels |
| RoundTrip.Started | qoi.go:88-93 | corrected, the decoder, starting after the header with no run, (0,0,0,255) and the zero cache, the same state the encoder starts in (qoi.go:214-216), reads back every pixel of the image |
| RoundTrip.HeaderOf | qoi.go:74-84 | a header written for a width and height below 65536 is accepted and reads back as them |
| RoundTrip.DecodedImage | qoi.go:63-191 | a stream whose header and chunks decode to the pixels gives their image |
| RoundTrip.RoundTrip | qoi_test.go:20-32 | corrected, decoding the encoding of any image whose width and height fit the 16-bit header gives back exactly its pixels |
| Images.Rect | image.go:28 | `image.Rect`'s rectangle has its coordinates put in order on each axis |
| Images.Bounds | image.go:27-29 | an image's bounds run from the origin to (Width, Height), and are empty exactly when one of the two is zero |
| Images.InBounds | image.go:27-29 | the points within the bounds are those with coordinates below the width and height |
| Images.At | image.go:31-36 | `At` finds a colour exactly when the bytes at `(y*Width+x)*Channels` are within `Pix`; the colour is those bytes, with alpha fixed at 255 unless there are four channels |
| Images.AtReadsPixel | image.go:31-36 | `At` depends on nothing but the addressed pixel's bytes |
| Images.AtFlatten | image.go:32-33 | in a 4-channel image laid out in raster order, `At(x, y)` is pixel `y*Width+x` |
| Opacity.IsOpaqueImage | util.go:5-24 | the image's own `Opaque()` answer is returned when it has one; otherwise the result is true exactly when every point within the bounds has alpha 0xffff, so empty bounds give true |
| Opacity.Alpha16 | util.go:17 | the 16-bit alpha of an 8-bit alpha is 0xffff exactly when the byte is 255 |
| Opacity.FlatOpaque | util.go:14-21 | the scan finds a raster-order 4-channel image opaque exactly when every pixel has alpha 255 |
| Opacity.ThreeChannelsOpaque | image.go:35 | an image with other than four channels is always opaque to the scan |
| Findings.LongRunAsWritten | qoi.go:119 | a run of 257 is written as `60 E0`; as written, it is read back with no repeats; corrected, it is read with 256 |
| Findings.FallingRedAsWritten | qoi.go:248-251 | as written, red falling from 2 to 1 gets delta -2 and the chunk `CD 77`, which is read back as red 0 |
| Findings.FallingRedCorrected | qoi.go:248-251 | corrected, the same step is delta -1, the chunk `85`, and reads back as red 1 |
| Findings.FallingRedFile | qoi.go:193-306 | as written, the 2x1 image red 2, red 1 encodes to a 19-byte file that decodes to red 2, black; corrected, it round-trips |

## Left out

- Stream plumbing is left out: `io.Reader`, `bufio`, `binary.Read` and `binary.Write`,
  `bytes.Buffer`, `out.Grow` and `w.Write`. The input is a `seq<byte>` read at a position, and
  the output is a `seq<byte>` that is appended to.
- Write errors, which `Encode` ignores, are left out. Read errors other than end of input are
  left out as well.
- The `image.Image` interface is left out. This includes the `m.At(x, y).(color.RGBA)` type
  assertion, which panics on other colour types. The encoder takes the raster-order
  sequence of RGBA pixels instead.
- `image.NewRGBA` and `color.RGBA.RGBA()` are modelled only as the zeroed 4-byte-per-pixel
  buffer and as multiplication by 257.
- With bounds that do not start at the origin, the encoder model numbers pixels from 0. The
  chunks written are the same.
- `init`, the `image.RegisterFormat` call and the unimplemented `DecodeConfig` stub are left
  out. They register the format and hold no codec logic.
- `DecodeIntoBuffer`, which `qoi_test.go` calls, is not part of this model. No such function
  appears in the files modelled.
- `Image.ColorModel` is left out, because it only returns a library constant.
- The colorspace constants `SRGB` and `Linear` are `const`s, so no contract states them.
- Opacity.IsOpaqueImage: the `Opaque()` method, found by a dynamic type assertion, is an
  optional boolean in `Picture`. The colours at each point are a function from the point to
  the 16-bit alpha.
- Opacity.IsOpaqueImage: the contract states the result, not the row-major order of the scan
  or the early exit at the first point that is not opaque. `At` is a pure function here, so
  neither can be observed. The method's loops do follow that order and exit early.
- Images.At: Go's `int` multiplication in the offset can overflow. The model does not
  reproduce this, because it uses unbounded integers.
- Images.At: an index outside `Pix`, which panics in Go, is the value `OutOfRange`.
- RoundTrip.RoundTrip: widths and heights of 65536 and above are excluded. The header stores
  them truncated to 16 bits, so the image decodes with other dimensions. The truncation
  itself is modelled in `Encoder.Header` and `Decoder.ReadHeader`.
- Bytes.ReadLittleEndian32: the size field is read but never used by the decoder, so only
  its range is stated.
- Chunks.DeltaChunk: its own contract states only the length. What it means is stated by
  `Chunks.DeltaChunkDecodes`, which proves that the decoder reads it back.

## Findings

| source | as written | input that shows it | evidently intended | confidence | as-written member | corrected member |
|---|---|---|---|---|---|---|
| qoi.go:119 | the RUN_16 count is computed in `byte` arithmetic; `(b1 & 0x1f) << 8` is always 0, so the count is `(b2 + 32) % 256` | a run of 257 equal pixels, flushed by qoi.go:229-232 as `60 E0`, is read as one pixel with no repeats | the count `(b1 & 0x1f) * 256 + b2 + 32` in `int`, matching the `run - 33` packing of qoi.go:230-232 for every run up to 0x2020 | not executed | Findings.LongRunAsWritten | Chunks.RunChunkDecodes |
| qoi.go:248-251 | a delta is `(cur*257 - prev*257) >> 8`; for a negative difference the arithmetic shift rounds down to `d - 1` | the 2x1 image (2,0,0,255), (1,0,0,255) encodes to `71 6F 69 66 02 00 01 00 07 00 00 00 B5 CD 77 00 00 00 00`, which decodes to (2,0,0,255), (0,0,0,255) | the delta `cur - prev`, which the decoder's additions at qoi.go:121-148 undo | not executed | Findings.FallingRedFile | RoundTrip.RoundTrip |
