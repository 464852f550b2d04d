/** The encoder, `Encode` in qoi.go: the pixels in raster order, each one
    either counted into a run or written as a cache hit, a delta chunk or a
    COLOR literal, after any run it ends has been flushed; then four padding
    bytes and the size field patched into the header. */
module Encoder {
  import opened Bytes
  import opened Pixels
  import opened Chunks

  /** What the encoder carries from one pixel to the next: `px_prev`, the run
      counter, the cache `index` and the output buffer `out`, header included. */
  datatype State = State(prev: Pixel, run: nat, cache: Cache, out: seq<byte>)

  /** The header as first written: the magic, the width and height truncated
      to 16 bits, and a zero size field. */
  function Header(width: nat, height: nat): (h: seq<byte>)
    ensures |h| == 12 && h[..4] == Magic && h[8..] == [0, 0, 0, 0]
  {
    Magic + LittleEndian16(width) + LittleEndian16(height) + [0, 0, 0, 0]
  }

  /** The state before the first pixel. */
  function Initial(width: nat, height: nat): (s: State)
    ensures s.run == 0 && s.out == Header(width, height) && s.prev == Start
  {
    State(Start, 0, EmptyCache(), Header(width, height))
  }

  /** The run is flushed when it reaches its longest encodable length, when
      the pixel changes, or at the last pixel of the image. */
  predicate Flushes(run: nat, changed: bool, last: bool)
  {
    run > 0 && (run == 0x2020 || changed || last)
  }

  /** The chunk for a pixel that differs from the previous one: INDEX when its
      cache slot already holds it, otherwise a delta or COLOR chunk. */
  function PixelChunk(rev: Revision, cache: Cache, prev: Pixel, px: Pixel): (c: seq<byte>)
    ensures 1 <= |c| <= 5
    ensures cache[Slot(px)] == px <==> c == [Slot(px)]
  {
    if cache[Slot(px)] == px then [Slot(px)] else DeltaChunk(px, DeltasOf(rev, px, prev))
  }

  /** The first half of a pass: count a repeat, then flush the run if due. */
  function Counted(s: State, px: Pixel, last: bool): (t: State)
    requires s.run < 0x2020
    ensures t.prev == s.prev && t.cache == s.cache && t.run < 0x2020
    ensures px != s.prev || last ==> t.run == 0
    ensures px == s.prev && !last ==> t.run == (s.run + 1) % 0x2020
  {
    var run := if px == s.prev then s.run + 1 else s.run;
    if Flushes(run, px != s.prev, last) then State(s.prev, 0, s.cache, s.out + RunChunk(run))
    else State(s.prev, run, s.cache, s.out)
  }

  /** The second half: a pixel unlike the previous one is written and cached. */
  function Emitted(rev: Revision, s: State, px: Pixel): (t: State)
    ensures t.prev == px && t.run == s.run
    ensures px == s.prev ==> t.cache == s.cache && t.out == s.out
    ensures px != s.prev ==> t.cache == s.cache[Slot(px) := px]
  {
    if px == s.prev then s
    else State(px, s.run, s.cache[Slot(px) := px], s.out + PixelChunk(rev, s.cache, s.prev, px))
  }

  /** One pass of the inner loop of `Encode`. */
  function EncodePixel(rev: Revision, s: State, px: Pixel, last: bool): (t: State)
    requires s.run < 0x2020
    ensures t.prev == px && t.run < 0x2020
    ensures px != s.prev || last ==> t.run == 0
    ensures px == s.prev ==> t.cache == s.cache
    ensures px != s.prev ==> t.cache == s.cache[Slot(px) := px]
    ensures s.out <= t.out
  {
    Emitted(rev, Counted(s, px, last), px)
  }

  /** The state after the first `i` pixels of the raster-order sequence. */
  function EncodeRange(rev: Revision, width: nat, height: nat, pixels: seq<Pixel>, i: nat): (s: State)
    requires i <= |pixels|
    ensures s.run < 0x2020 && |s.out| >= 12
    ensures i == |pixels| ==> s.run == 0
    decreases i
  {
    if i == 0 then Initial(width, height)
    else EncodePixel(rev, EncodeRange(rev, width, height, pixels, i - 1), pixels[i - 1], i == |pixels|)
  }

  /** The low half of the size field set to the length after the header. */
  function Patched(buf: seq<byte>): (f: seq<byte>)
    requires |buf| >= 12
    ensures |f| == |buf| && f[..8] == buf[..8] && f[10..] == buf[10..]
    ensures ReadLittleEndian16(f, 8) == (|buf| - 12) % 65536
  {
    var f := buf[..8] + LittleEndian16(|buf| - 12) + buf[10..];
    assert f[8..10] == LittleEndian16(|buf| - 12);
    LittleEndian16RoundTrip(|buf| - 12, f, 8);
    f
  }

  /** The file `Encode` writes for an image given in raster order: the buffer
      after the last pixel, padded with four zeros, its size patched in. */
  function EncodeImage(rev: Revision, width: nat, height: nat, pixels: seq<Pixel>): (f: seq<byte>)
    requires |pixels| == width * height
    ensures |f| >= 16 && f[|f| - 4..] == [0, 0, 0, 0]
  {
    Patched(EncodeRange(rev, width, height, pixels, |pixels|).out + [0, 0, 0, 0])
  }

  /** The chunks written after the header for the first `i` pixels. */
  function Body(rev: Revision, width: nat, height: nat, pixels: seq<Pixel>, i: nat): (c: seq<byte>)
    requires i <= |pixels|
    ensures |c| == |EncodeRange(rev, width, height, pixels, i).out| - 12
  {
    EncodeRange(rev, width, height, pixels, i).out[12..]
  }

  /** The file around the chunks: the magic, the 16-bit width and height, the
      32-bit size field whose low half holds the length after the header, the
      chunks and four zero bytes of padding. */
  function Layout(width: nat, height: nat, body: seq<byte>): (f: seq<byte>)
    ensures |f| == 16 + |body|
    ensures f[..4] == Magic && f[12..|f| - 4] == body && f[|f| - 4..] == [0, 0, 0, 0]
  {
    Magic + LittleEndian16(width) + LittleEndian16(height) + LittleEndian16(|body| + 4) + [0, 0]
      + body + [0, 0, 0, 0]
  }

  /** The encoded file is the header, the chunks and the padding. */
  lemma EncodeImageLayout(rev: Revision, width: nat, height: nat, pixels: seq<Pixel>)
    requires |pixels| == width * height
    ensures EncodeImage(rev, width, height, pixels) == Layout(width, height, Body(rev, width, height, pixels, |pixels|))
  {
    HeaderKept(rev, width, height, pixels, |pixels|);
    PatchedLayout(width, height, EncodeRange(rev, width, height, pixels, |pixels|).out);
  }

  /** Padding a buffer that starts with the header and patching its size
      field gives the layout around what follows the header. */
  lemma PatchedLayout(width: nat, height: nat, out: seq<byte>)
    requires |out| >= 12 && out[..12] == Header(width, height)
    ensures Patched(out + [0, 0, 0, 0]) == Layout(width, height, out[12..])
  {
    var body := out[12..];
    assert out == Header(width, height) + body;
    var padded := out + [0, 0, 0, 0];
    assert padded[..8] == Magic + LittleEndian16(width) + LittleEndian16(height);
    assert padded[10..] == [0, 0] + body + [0, 0, 0, 0];
  }

  /** The header fields read back as the dimensions modulo 2^16 and the length
      of everything after the header. */
  lemma HeaderReadsBack(width: nat, height: nat, body: seq<byte>)
    ensures var f := Layout(width, height, body);
      ReadLittleEndian16(f, 4) == width % 65536 && ReadLittleEndian16(f, 6) == height % 65536
      && ReadLittleEndian32(f, 8) == (|f| - 12) % 65536
  {
    var f := Layout(width, height, body);
    assert f[4..6] == LittleEndian16(width);
    assert f[6..8] == LittleEndian16(height);
    assert f[8..10] == LittleEndian16(|body| + 4);
    assert f[10] == 0 && f[11] == 0;
    LittleEndian16RoundTrip(width, f, 4);
    LittleEndian16RoundTrip(height, f, 6);
    LittleEndian16RoundTrip(|body| + 4, f, 8);
  }

  // ---------------------------------------------------------------------
  // Invariants of the encoder's state

  /** The slot of `prev` holds `prev` unless it holds a pixel of another
      slot (only the zero-filled initial entries do). */
  predicate PrevCached(cache: Cache, prev: Pixel)
  {
    Slot(cache[Slot(prev)]) == Slot(prev) ==> cache[Slot(prev)] == prev
  }

  /** Opaque black and the zero pixel hash to different slots. */
  lemma InitialCached()
    ensures PrevCached(EmptyCache(), Start)
  {
    StartSlot();
    BlankSlot();
  }

  /** A pass either resets the run or extends it by a repeat of `prev`, and
      leaves the new previous pixel in its slot. */
  lemma PassInvariant(rev: Revision, s: State, px: Pixel, last: bool)
    requires s.run < 0x2020 && PrevCached(s.cache, s.prev)
    ensures var t := EncodePixel(rev, s, px, last);
      PrevCached(t.cache, t.prev) && (t.run == 0 || (px == s.prev && t.run == s.run + 1))
  {
    var c := Counted(s, px, last);
    assert c.run == 0 || (px == s.prev && c.run == s.run + 1);
    if px != s.prev {
      assert EncodePixel(rev, s, px, last).cache[Slot(px)] == px;
    }
  }

  /** The pending run consists of copies of `prev`, the previous pixel, and
      the cache agrees with `prev`. */
  lemma {:induction false} RangeInvariant(rev: Revision, width: nat, height: nat, pixels: seq<Pixel>, i: nat)
    requires i <= |pixels|
    ensures var s := EncodeRange(rev, width, height, pixels, i);
      s.run <= i && (forall j :: i - s.run <= j < i ==> pixels[j] == s.prev)
      && PrevCached(s.cache, s.prev)
      && (i > 0 ==> s.prev == pixels[i - 1])
  {
    if i == 0 {
      InitialCached();
    } else {
      var s := EncodeRange(rev, width, height, pixels, i - 1);
      RangeInvariant(rev, width, height, pixels, i - 1);
      PassInvariant(rev, s, pixels[i - 1], i == |pixels|);
      var t := EncodeRange(rev, width, height, pixels, i);
      assert t == EncodePixel(rev, s, pixels[i - 1], i == |pixels|);
      assert t.run == 0 || t.run == s.run + 1;
    }
  }

  /** Nothing once written is changed: earlier buffers are prefixes of later
      ones. */
  lemma {:induction false} OutputGrows(rev: Revision, width: nat, height: nat, pixels: seq<Pixel>, i: nat, j: nat)
    requires i <= j <= |pixels|
    ensures EncodeRange(rev, width, height, pixels, i).out <= EncodeRange(rev, width, height, pixels, j).out
    decreases j
  {
    if i < j {
      OutputGrows(rev, width, height, pixels, i, j - 1);
    }
  }

  /** Every buffer starts with the header as first written. */
  lemma HeaderKept(rev: Revision, width: nat, height: nat, pixels: seq<Pixel>, i: nat)
    requires i <= |pixels|
    ensures EncodeRange(rev, width, height, pixels, i).out[..12] == Header(width, height)
  {
    OutputGrows(rev, width, height, pixels, 0, i);
  }

  // ---------------------------------------------------------------------
  // The imperative encoder

  /** `Encode` as written, on the pixels of the image in raster order: the
      header with a zero size, the nested loops over rows and columns, the
      padding, and the size patched in place at `size_pos`. */
  method Encode(width: nat, height: nat, pixels: seq<Pixel>) returns (out: seq<byte>)
    requires |pixels| == width * height
    ensures out == EncodeImage(AsWritten, width, height, pixels)
  {
    out := Magic + LittleEndian16(width) + LittleEndian16(height);
    var sizePos := |out|;
    out := out + [0, 0, 0, 0];
    var index := new Pixel[64](_ => Blank);
    var prev := Start;
    var run := 0;
    assert index[..] == EmptyCache();
    var y, i := 0, 0;
    while y < height
      invariant 0 <= y <= height && index.Length == 64
      invariant i == y * width <= |pixels|
      invariant Holds(index[..], prev, run, out, EncodeRange(AsWritten, width, height, pixels, i))
    {
      LastRow(y, width, height);
      prev, run, out := EncodeRow(index, prev, run, out, width, height, pixels, i, y == height - 1);
      y, i := y + 1, i + width;
    }
    assert i == |pixels|;
    out := Finish(out, sizePos);
  }

  /** After the loops: the four padding bytes, and the length after the
      header written into the low half of the size field at `size_pos`. */
  method Finish(out: seq<byte>, sizePos: nat) returns (f: seq<byte>)
    requires |out| >= 12 && sizePos == 8
    ensures f == Patched(out + [0, 0, 0, 0])
  {
    f := out + [0, 0, 0, 0];
    f := f[..sizePos] + LittleEndian16(|f| - 12) + f[sizePos + 2..];
  }

  /** The inner loop over one row, whose first pixel is `pixels[start]`. */
  method EncodeRow(index: array<Pixel>, prev: Pixel, run: nat, out: seq<byte>,
                   width: nat, height: nat, pixels: seq<Pixel>, start: nat, lastRow: bool)
      returns (prev': Pixel, run': nat, out': seq<byte>)
    requires index.Length == 64 && start + width <= |pixels|
    requires width > 0 ==> (lastRow <==> start + width == |pixels|)
    requires Holds(index[..], prev, run, out, EncodeRange(AsWritten, width, height, pixels, start))
    modifies index
    ensures Holds(index[..], prev', run', out', EncodeRange(AsWritten, width, height, pixels, start + width))
  {
    prev', run', out' := prev, run, out;
    var i := start;
    while i < start + width
      invariant start <= i <= start + width
      invariant Holds(index[..], prev', run', out', EncodeRange(AsWritten, width, height, pixels, i))
    {
      var px := pixels[i];
      var last := i == start + width - 1 && lastRow;
      prev', run', out' := EncodeOne(index, prev', run', out', px, last);
      i := i + 1;
    }
  }

  predicate Holds(cache: seq<Pixel>, prev: Pixel, run: nat, out: seq<byte>, s: State)
  {
    s.prev == prev && s.run == run && s.cache == cache && s.out == out
  }

  /** Row `y` ends inside the image, at its end exactly for the last row. */
  lemma LastRow(y: nat, width: nat, height: nat)
    requires y < height
    ensures (y + 1) * width == y * width + width <= width * height
    ensures width > 0 ==> (y == height - 1 <==> y * width + width == width * height)
  {
    NextRow(y, width);
    NextRow(height - 1, width);
    RowsBelow(y + 1, height, width);
    if y < height - 1 && width > 0 {
      RowsBelow(y + 2, height, width);
      NextRow(y + 1, width);
    }
  }

  lemma NextRow(y: nat, width: nat)
    ensures (y + 1) * width == y * width + width
  {
  }

  lemma RowsBelow(y: nat, z: nat, width: nat)
    requires y <= z
    ensures y * width <= z * width
  {
  }

  /** The body of the inner loop: count the pixel, flush the run, then write
      a cache hit or a delta chunk and remember the pixel. */
  method EncodeOne(index: array<Pixel>, prev: Pixel, run: nat, out: seq<byte>, px: Pixel, last: bool)
      returns (prev': Pixel, run': nat, out': seq<byte>)
    requires index.Length == 64 && run < 0x2020
    modifies index
    ensures Holds(index[..], prev', run', out', EncodePixel(AsWritten, State(prev, run, old(index[..]), out), px, last))
  {
    run' := run;
    if px == prev {
      run' := run' + 1;
    }
    run', out' := FlushRun(run', out, px != prev, last);
    if px != prev {
      out' := WritePixel(index, prev, px, out');
    }
    prev' := px;
  }

  /** A pending run is flushed when it reaches its largest count, when the
      pixel changes or at the last pixel (qoi.go:226-235): the RUN_8 or
      RUN_16 chunk, and the counter reset. */
  method FlushRun(run: nat, out: seq<byte>, changed: bool, last: bool) returns (run': nat, out': seq<byte>)
    requires run <= 0x2020
    ensures Flushes(run, changed, last) ==> run' == 0 && out' == out + RunChunk(run)
    ensures !Flushes(run, changed, last) ==> run' == run && out' == out
  {
    run', out' := run, out;
    if run > 0 && (run == 0x2020 || changed || last) {
      if run < 33 {
        out' := out' + [0x40 + (run - 1)];
      } else {
        var rest := run - 33;
        out' := out' + [0x60 + rest / 256, rest % 256];
      }
      run' := 0;
    }
  }

  /** A pixel unlike the previous one: INDEX on a cache hit, otherwise the
      slot is overwritten and a delta or COLOR chunk follows. */
  method WritePixel(index: array<Pixel>, prev: Pixel, px: Pixel, out: seq<byte>) returns (out': seq<byte>)
    requires index.Length == 64
    modifies index
    ensures index[..] == old(index[..])[Slot(px) := px]
    ensures out' == out + PixelChunk(AsWritten, old(index[..]), prev, px)
  {
    ghost var cache: Cache := index[..];
    var slot := Slot(px);
    if index[slot] == px {
      out' := out + [slot];
    } else {
      index[slot] := px;
      out' := WriteDeltas(out, px, prev);
    }
    assert index[..] == cache[Slot(px) := px];
  }

  /** The deltas from the 16-bit channel values and the chunk they select. */
  method WriteDeltas(out: seq<byte>, px: Pixel, prev: Pixel) returns (out': seq<byte>)
    ensures out' == out + DeltaChunk(px, DeltasOf(AsWritten, px, prev))
  {
    var v := DeltasOf(AsWritten, px, prev);
    var vr, vg, vb, va := v.r, v.g, v.b, v.a;
    if -16 < vr < 17 && -16 < vg < 17 && -16 < vb < 17 && -16 < va < 17 {
      if va == 0 && -2 < vr < 3 && -2 < vg < 3 && -2 < vb < 3 {
        out' := out + [0x80 + (vr + 1) * 16 + (vg + 1) * 4 + (vb + 1)];
      } else if va == 0 && -8 < vg < 9 && -8 < vb < 9 {
        out' := out + [0xC0 + (vr + 15), (vg + 7) * 16 + (vb + 7)];
      } else {
        out' := out + [0xE0 + (vr + 15) / 2];
        out' := out' + [Byte((vr + 15) * 128 + (vg + 15) * 4 + (vb + 15) / 8)];
        out' := out' + [Byte((vb + 15) * 32 + (va + 15))];
      }
    } else {
      out' := WriteColor(out, px, v);
    }
  }

  /** The COLOR chunk: the mask of changed channels, then those channels. */
  method WriteColor(out: seq<byte>, px: Pixel, v: Deltas) returns (out': seq<byte>)
    ensures out' == out + [0xF0 + 8 * Changed(v.r) + 4 * Changed(v.g) + 2 * Changed(v.b) + Changed(v.a)]
      + IfChanged(v.r, px.r) + IfChanged(v.g, px.g) + IfChanged(v.b, px.b) + IfChanged(v.a, px.a)
  {
    var mask := 0xF0;
    if v.r != 0 { mask := mask + 8; }
    if v.g != 0 { mask := mask + 4; }
    if v.b != 0 { mask := mask + 2; }
    if v.a != 0 { mask := mask + 1; }
    assert mask == 0xF0 + 8 * Changed(v.r) + 4 * Changed(v.g) + 2 * Changed(v.b) + Changed(v.a);
    out' := out + [mask];
    if v.r != 0 { out' := out' + [px.r]; }
    assert out' == out + [mask] + IfChanged(v.r, px.r);
    if v.g != 0 { out' := out' + [px.g]; }
    assert out' == out + [mask] + IfChanged(v.r, px.r) + IfChanged(v.g, px.g);
    if v.b != 0 { out' := out' + [px.b]; }
    assert out' == out + [mask] + IfChanged(v.r, px.r) + IfChanged(v.g, px.g) + IfChanged(v.b, px.b);
    if v.a != 0 { out' := out' + [px.a]; }
  }
}
