/** Concrete inputs on which the code as written does not give back what it
    encoded, beside the corrected readings of the same bytes. */
module Findings {
  import opened Bytes
  import opened Pixels
  import opened Chunks
  import opened Encoder
  import opened Decoder
  import RoundTrip

  /** A run of 257 repeats is flushed as the RUN_16 chunk `60 E0`. As
      written, the decoder computes its count in byte arithmetic,
      `(0xE0 + 32) % 256 == 0`, and reads the chunk as the current pixel with
      no repeats to follow: one pixel instead of 257. Corrected, the count is
      256 further repeats. */
  lemma LongRunAsWritten(px: Pixel, cache: Cache)
    ensures RunChunk(257) == [0x60, 0xE0]
    ensures ReadChunk(AsWritten, [0x60, 0xE0], 0, px, cache) == Chunk(px, 0, 2)
    ensures ReadChunk(Corrected, [0x60, 0xE0], 0, px, cache) == Chunk(px, 256, 2)
  {
    assert Classify(0x60) == Run16;
  }

  /** A two-pixel image, red 2 then red 1, to follow through both halves of
      the codec. */
  const Red2 := Pixel(2, 0, 0, 255)
  const Red1 := Pixel(1, 0, 0, 255)
  const Pair: seq<Pixel> := [Red2, Red1]

  /** Red falling from 2 to 1. As written, the delta of the 16-bit values
      shifted right by 8 is `(257 - 514) >> 8 == -2`, not -1; the encoder
      writes the DIFF_16 chunk `CD 77` for it, which the decoder adds back as
      red 0. */
  lemma FallingRedAsWritten(cache: Cache)
    ensures DeltasOf(AsWritten, Red1, Red2) == Deltas(-2, 0, 0, 0)
    ensures DeltaChunk(Red1, Deltas(-2, 0, 0, 0)) == [0xCD, 0x77]
    ensures ReadChunk(AsWritten, [0xCD, 0x77], 0, Red2, cache) == Chunk(Pixel(0, 0, 0, 255), 0, 2)
  {
    assert Classify(0xCD) == Diff16;
  }

  /** With the corrected deltas the same pixel is written as the DIFF_8 chunk
      `85` and read back as itself. */
  lemma FallingRedCorrected(cache: Cache)
    ensures DeltasOf(Corrected, Red1, Red2) == Deltas(-1, 0, 0, 0)
    ensures DeltaChunk(Red1, Deltas(-1, 0, 0, 0)) == [0x85]
    ensures ReadChunk(Corrected, [0x85], 0, Red2, cache) == Chunk(Red1, 0, 1)
  {
    CorrectedFall();
    assert Classify(0x85) == Diff8;
  }

  lemma CorrectedFall()
    ensures DeltasOf(Corrected, Red1, Red2) == Deltas(-1, 0, 0, 0)
    ensures DeltaChunk(Red1, Deltas(-1, 0, 0, 0)) == [0x85]
  {
  }

  /** The file the encoder as written produces for it: the header of a 2x1
      image with size 7, the DIFF_8 chunk `B5` for red 2 over the starting
      black, the DIFF_16 chunk `CD 77` for red 1, and the padding. */
  const Encoded: seq<byte> := [0x71, 0x6F, 0x69, 0x66, 2, 0, 1, 0, 7, 0, 0, 0, 0xB5, 0xCD, 0x77, 0, 0, 0, 0]

  /** Encoding `Pair` as written gives `Encoded`, which the decoder as written
      reads back as red 2 followed by black; corrected, the same image comes
      back unchanged. */
  lemma FallingRedFile()
    ensures EncodeImage(AsWritten, 2, 1, Pair) == Encoded
    ensures DecodeImage(AsWritten, Encoded) == Success(Decoder.Image(2, 1, [2, 0, 0, 255, 0, 0, 0, 255]))
    ensures DecodeImage(AsWritten, EncodeImage(AsWritten, 2, 1, Pair)) != Success(Decoder.Image(2, 1, Flatten(Pair)))
    ensures DecodeImage(Corrected, EncodeImage(Corrected, 2, 1, Pair)) == Success(Decoder.Image(2, 1, Flatten(Pair)))
  {
    EncodesPair();
    DecodesEncoded();
    NotPair(DecodeImage(AsWritten, EncodeImage(AsWritten, 2, 1, Pair)));
    RoundTrip.RoundTrip(2, 1, Pair);
  }

  /** The decoded buffer holds black where `Pair` has red 1. */
  lemma NotPair(d: Result<Decoder.Image>)
    requires d == Success(Decoder.Image(2, 1, [2, 0, 0, 255, 0, 0, 0, 255]))
    ensures d != Success(Decoder.Image(2, 1, Flatten(Pair)))
  {
    FlattenAt(Pair, 1);
    assert Flatten(Pair)[4] == Flatten(Pair)[4..8][0] == 1;
  }

  /** The deltas as written for red 2 over the starting black, and the chunk. */
  lemma RisingRed()
    ensures DeltasOf(AsWritten, Red2, Start) == Deltas(2, 0, 0, 0)
    ensures DeltaChunk(Red2, Deltas(2, 0, 0, 0)) == [0xB5]
  {
  }

  /** The first pass: red 2 is not cached, so its delta chunk is written. */
  lemma EncodeFirst(s: State) returns (t: State)
    requires s.prev == Start && s.run == 0 && s.cache == EmptyCache()
    ensures t == EncodePixel(AsWritten, s, Red2, false)
    ensures t.out == s.out + [0xB5] && t.run == 0 && t.prev == Red2 && t.cache == s.cache[Slot(Red2) := Red2]
  {
    t := EncodePixel(AsWritten, s, Red2, false);
    assert s.cache[Slot(Red2)] == Blank;
    RisingRed();
  }

  /** The second pass: red 1 is not cached either. */
  lemma EncodeSecond(s: State) returns (t: State)
    requires s.prev == Red2 && s.run == 0 && s.cache == EmptyCache()[Slot(Red2) := Red2]
    ensures t == EncodePixel(AsWritten, s, Red1, true)
    ensures t.out == s.out + [0xCD, 0x77]
  {
    t := EncodePixel(AsWritten, s, Red1, true);
    assert s.cache[Slot(Red1)] != Red1;
    FallingRedAsWritten(s.cache);
  }

  lemma PairBody()
    ensures Encoder.Body(AsWritten, 2, 1, Pair, 2) == [0xB5, 0xCD, 0x77]
  {
    var s0 := EncodeRange(AsWritten, 2, 1, Pair, 0);
    var s1 := EncodeFirst(s0);
    assert EncodeRange(AsWritten, 2, 1, Pair, 1) == s1;
    var s2 := EncodeSecond(s1);
    assert EncodeRange(AsWritten, 2, 1, Pair, 2) == s2;
    assert s2.out == Encoder.Header(2, 1) + [0xB5, 0xCD, 0x77];
  }

  lemma EncodesPair()
    ensures EncodeImage(AsWritten, 2, 1, Pair) == Encoded
  {
    EncodeImageLayout(AsWritten, 2, 1, Pair);
    PairBody();
    EncodedLayout();
  }

  lemma EncodedLayout()
    ensures Layout(2, 1, [0xB5, 0xCD, 0x77]) == Encoded
  {
    assert LittleEndian16(2) == [2, 0] && LittleEndian16(1) == [1, 0] && LittleEndian16(7) == [7, 0];
    Spliced([0x71, 0x6F, 0x69, 0x66], [2, 0], [1, 0], [7, 0]);
  }

  lemma Spliced(m: seq<byte>, w: seq<byte>, h: seq<byte>, n: seq<byte>)
    requires m == Magic && w == [2, 0] && h == [1, 0] && n == [7, 0]
    ensures m + w + h + n + [0, 0] + [0xB5, 0xCD, 0x77] + [0, 0, 0, 0] == Encoded
  {
  }

  lemma EncodedHeader()
    ensures ReadHeader(Encoded) == Success(Decoder.Header(2, 1, 7, 12))
  {
    assert Encoded[..4] == Magic;
  }

  /** As written, `B5` after the starting black is red 2 ... */
  lemma ReadFirst(data: seq<byte>, c: Cache)
    requires |data| > 12 && data[12] == 0xB5
    ensures ReadChunk(AsWritten, data, 12, Start, c) == Chunk(Red2, 0, 13)
  {
    assert Classify(0xB5) == Diff8;
  }

  /** ... and `CD 77` after red 2 is black, not red 1. */
  lemma ReadSecond(data: seq<byte>, c: Cache)
    requires |data| > 14 && data[13] == 0xCD && data[14] == 0x77
    ensures ReadChunk(AsWritten, data, 13, Red2, c) == Chunk(Pixel(0, 0, 0, 255), 0, 15)
  {
    assert Classify(0xCD) == Diff16;
  }

  lemma DecodedBody(data: seq<byte>, c: Cache, p: Pixel, q: Pixel)
    requires |data| > 14 && data[12] == 0xB5 && data[13] == 0xCD && data[14] == 0x77
    requires p == Red2 && q == Pixel(0, 0, 0, 255)
    ensures DecodeBody(AsWritten, data, 12, 0, Start, c, 2) == Ended([p, q], 15)
  {
    var c' := c[Slot(p) := p];
    ReadFirst(data, c);
    DecodeStep(AsWritten, data, 12, Start, c, 2, p, 0, 13);
    ReadSecond(data, c');
    DecodeStep(AsWritten, data, 13, p, c', 1, q, 0, 15);
    NoMorePixels(data, 15, q, c'[Slot(q) := q]);
    JoinPair(p, q, 15);
  }

  lemma JoinPair(p: Pixel, q: Pixel, pos: nat)
    ensures Join([p], Join([q], Ended([], pos))) == Ended([p, q], pos)
  {
    assert [q] + [] == [q];
    assert [p] + [q] == [p, q];
  }

  lemma NoMorePixels(data: seq<byte>, pos: nat, px: Pixel, c: Cache)
    requires pos <= |data|
    ensures DecodeBody(AsWritten, data, pos, 0, px, c, 0) == Ended([], pos)
  {
  }

  lemma FlatPair(p: Pixel, q: Pixel)
    requires p == Red2 && q == Pixel(0, 0, 0, 255)
    ensures Flatten([p, q]) + Zeros(0) == [2, 0, 0, 255, 0, 0, 0, 255]
  {
    FlattenSnoc([p], q);
    assert [p] + [q] == [p, q];
    assert Flatten([p]) == Channels(p) + Flatten([]);
  }

  lemma DecodesEncoded()
    ensures DecodeImage(AsWritten, Encoded) == Success(Decoder.Image(2, 1, [2, 0, 0, 255, 0, 0, 0, 255]))
  {
    EncodedHeader();
    DecodedBody(Encoded, EmptyCache(), Red2, Pixel(0, 0, 0, 255));
    FlatPair(Red2, Pixel(0, 0, 0, 255));
  }
}
