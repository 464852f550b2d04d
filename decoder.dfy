/** The decoder, `Decode` in qoi.go: the 12-byte little-endian header, then
    one chunk per loop pass (or none while a run is pending), one RGBA pixel
    written per pass into a zero-filled `width * height * 4` buffer. */
module Decoder {
  import opened Bytes
  import opened Pixels
  import opened Chunks

  /** `io.EOF`, `io.ErrUnexpectedEOF` and the "bad header" error. */
  datatype Error = Eof | UnexpectedEof | BadHeader

  datatype Result<T> = Success(value: T) | Failure(error: Error)

  /** The header fields and the position of the first chunk. */
  datatype Header = Header(width: nat, height: nat, size: nat, next: nat)

  /** The decoded `image.RGBA`: bounds `(0,0)-(width,height)`, four bytes per
      pixel in raster order. */
  datatype Image = Image(width: nat, height: nat, pix: seq<byte>)

  /** `binary.Read` of a `uint16` or `uint32` field whose error is ignored:
      with too few bytes left the field keeps its zero value and the reader is
      left at the end of the input. */
  datatype Field = Field(value: nat, next: nat)

  function ReadU16(data: seq<byte>, pos: nat): (f: Field)
    requires pos <= |data|
    ensures f.next <= |data| && f.value < 65536
    ensures f.next == if pos + 2 <= |data| then pos + 2 else |data|
  {
    if pos + 2 <= |data| then Field(ReadLittleEndian16(data, pos), pos + 2) else Field(0, |data|)
  }

  function ReadU32(data: seq<byte>, pos: nat): (f: Field)
    requires pos <= |data|
    ensures f.next <= |data| && f.value < 0x1_0000_0000
    ensures f.next == if pos + 4 <= |data| then pos + 4 else |data|
  {
    if pos + 4 <= |data| then Field(ReadLittleEndian32(data, pos), pos + 4) else Field(0, |data|)
  }

  /** The magic is read with an error check (an empty input gives `io.EOF`, a
      partial one `io.ErrUnexpectedEOF`) and compared; width, height and size
      follow without. */
  function ReadHeader(data: seq<byte>): (r: Result<Header>)
    ensures r == Failure(Eof) <==> |data| == 0
    ensures r == Failure(UnexpectedEof) <==> 0 < |data| < 4
    ensures r == Failure(BadHeader) <==> 4 <= |data| && data[..4] != Magic
    ensures r.Success? ==> r.value.next == if |data| >= 12 then 12 else |data|
    ensures r.Success? && |data| >= 12 ==>
      r.value.width == ReadLittleEndian16(data, 4) && r.value.height == ReadLittleEndian16(data, 6)
      && r.value.size == ReadLittleEndian32(data, 8)
  {
    if |data| == 0 then Failure(Eof)
    else if |data| < 4 then Failure(UnexpectedEof)
    else if data[..4] != Magic then Failure(BadHeader)
    else
      var width := ReadU16(data, 4);
      var height := ReadU16(data, width.next);
      var size := ReadU32(data, height.next);
      Success(Header(width.value, height.value, size.value, size.next))
  }

  /** The pixels the loop produces and where it stopped reading, or the error
      of an input that ends inside a chunk. */
  datatype Body = Ended(pixels: seq<Pixel>, pos: nat) | Truncated

  /** `pre` followed by what `b` produced. */
  function Join(pre: seq<Pixel>, b: Body): (r: Body)
    ensures r.Truncated? <==> b.Truncated?
  {
    match b
    case Truncated => Truncated
    case Ended(ps, pos) => Ended(pre + ps, pos)
  }

  /** What one pass of the loop does: with a run pending it emits the current
      pixel again; otherwise it reads a chunk and either stops (end of input
      at a tag, or a cut chunk) or emits the chunk's pixel and caches it. */
  datatype Pass = Emit(px: Pixel, run: nat, pos: nat, cache: Cache) | Stop(result: Body)

  function NextPass(rev: Revision, data: seq<byte>, pos: nat, run: nat, px: Pixel, cache: Cache): (p: Pass)
    requires pos <= |data|
    ensures p.Emit? ==> pos <= p.pos <= |data|
    ensures p.Stop? ==> p.result == Truncated || (p.result == Ended([], pos) && pos == |data|)
  {
    if run > 0 then Emit(px, run - 1, pos, cache)
    else
      match ReadChunk(rev, data, pos, px, cache)
      case AtEnd => Stop(Ended([], pos))
      case Cut => Stop(Truncated)
      case Chunk(q, k, next) => Emit(q, k, next, cache[Slot(q) := q])
  }

  /** The loop `for len(pixels) > 0` with `n` pixels still to write, the read
      position, the run counter, the current pixel and the cache: while the
      run counter is positive it is decremented and nothing is read; otherwise
      a chunk is read and the cache slot of the resulting pixel is overwritten. */
  function DecodeBody(rev: Revision, data: seq<byte>, pos: nat, run: nat, px: Pixel, cache: Cache, n: nat): (b: Body)
    requires pos <= |data|
    ensures b.Ended? ==> |b.pixels| <= n && pos <= b.pos <= |data|
    ensures b.Ended? && |b.pixels| < n ==> b.pos == |data|
    ensures n > 0 && run == 0 && pos == |data| ==> b == Ended([], pos)
    ensures n > 0 && run == 0 && pos < |data| && pos + ChunkSize(data[pos]) > |data| ==> b == Truncated
    decreases n, 1
  {
    if n == 0 then Ended([], pos) else DecodeNext(rev, data, pos, run, px, cache, n)
  }

  /** One pass of the loop, then the rest of it. */
  function DecodeNext(rev: Revision, data: seq<byte>, pos: nat, run: nat, px: Pixel, cache: Cache, n: nat): (b: Body)
    requires pos <= |data| && n > 0
    ensures b.Ended? ==> |b.pixels| <= n && pos <= b.pos <= |data|
    ensures b.Ended? && |b.pixels| < n ==> b.pos == |data|
    ensures n > 0 && run == 0 && pos == |data| ==> b == Ended([], pos)
    ensures n > 0 && run == 0 && pos < |data| && pos + ChunkSize(data[pos]) > |data| ==> b == Truncated
    decreases n, 0
  {
    match NextPass(rev, data, pos, run, px, cache)
    case Stop(b) => b
    case Emit(q, k, next, c) => Join([q], DecodeBody(rev, data, next, k, q, c, n - 1))
  }

  /** A pass that emits a pixel leaves the rest of the loop to the state it
      produces; one that stops ends the loop with its result. */
  lemma PassThen(rev: Revision, data: seq<byte>, pos: nat, run: nat, px: Pixel, cache: Cache, n: nat)
    requires pos <= |data| && n > 0
    ensures var p := NextPass(rev, data, pos, run, px, cache);
      DecodeBody(rev, data, pos, run, px, cache, n)
      == if p.Stop? then p.result else Join([p.px], DecodeBody(rev, data, p.pos, p.run, p.px, p.cache, n - 1))
  {
    assert DecodeBody(rev, data, pos, run, px, cache, n) == DecodeNext(rev, data, pos, run, px, cache, n);
  }

  /** The whole decoder. An input that ends where a tag byte is due yields the
      image with its remaining pixels left zero and no error; one that ends
      inside a chunk yields `io.EOF`. */
  function DecodeImage(rev: Revision, data: seq<byte>): (r: Result<Image>)
    ensures r.Success? ==> |r.value.pix| == 4 * (r.value.width * r.value.height)
    ensures r == Failure(BadHeader) <==> 4 <= |data| && data[..4] != Magic
    ensures r == Failure(UnexpectedEof) <==> 0 < |data| < 4
    ensures |data| == 0 ==> r == Failure(Eof)
    ensures r.Success? && |data| >= 12 ==>
      r.value.width == ReadLittleEndian16(data, 4) && r.value.height == ReadLittleEndian16(data, 6)
  {
    match ReadHeader(data)
    case Failure(e) => Failure(e)
    case Success(h) => Assemble(h, DecodeBody(rev, data, h.next, 0, Start, EmptyCache(), h.width * h.height))
  }

  /** The result of `Decode` once the loop has finished or failed. */
  function Assemble(h: Header, b: Body): (r: Result<Image>)
    requires b.Ended? ==> |b.pixels| <= h.width * h.height
    ensures r.Success? ==> |r.value.pix| == 4 * (r.value.width * r.value.height)
    ensures r.Failure? <==> b.Truncated?
    ensures r.Failure? ==> r.error == Eof
    ensures b.Ended? ==> r.Success? && r.value.width == h.width && r.value.height == h.height
    ensures b.Ended? ==> r.value.pix[..4 * |b.pixels|] == Flatten(b.pixels)
    ensures b.Ended? ==> forall i :: 4 * |b.pixels| <= i < |r.value.pix| ==> r.value.pix[i] == 0
  {
    match b
    case Truncated => Failure(Eof)
    case Ended(ps, _) =>
      Success(Image(h.width, h.height, Flatten(ps) + Zeros(4 * (h.width * h.height - |ps|))))
  }

  /** The body of the loop on the 64-entry cache array. */
  method DecodePass(data: seq<byte>, pos: nat, run: nat, px: Pixel, index: array<Pixel>) returns (p: Pass)
    requires pos <= |data| && index.Length == 64
    modifies index
    ensures p == NextPass(AsWritten, data, pos, run, px, old(index[..]))
    ensures p.Emit? ==> index[..] == p.cache
    ensures p.Stop? ==> index[..] == old(index[..])
  {
    if run > 0 {
      return Emit(px, run - 1, pos, index[..]);
    }
    ghost var cache: Cache := index[..];
    var step := ReadChunk(AsWritten, data, pos, px, index[..]);
    match step
    case AtEnd => return Stop(Ended([], pos));
    case Cut => return Stop(Truncated);
    case Chunk(q, k, next) =>
      index[Slot(q)] := q;
      assert index[..] == cache[Slot(q) := q];
      return Emit(q, k, next, index[..]);
  }

  /** `Decode` as written: the cache is a 64-entry array and the pixels are
      written into a zero-filled buffer four bytes at a time. */
  method Decode(data: seq<byte>) returns (r: Result<Image>)
    ensures r == DecodeImage(AsWritten, data)
  {
    var header := ReadHeader(data);
    if header.Failure? {
      return Failure(header.error);
    }
    var h := header.value;
    var n := h.width * h.height;
    var pix := new byte[4 * n](_ => 0);
    assert pix[..] == Zeros(4 * n);
    var ok := DecodePixels(data, h.next, n, pix);
    if !ok {
      return Failure(Eof);
    }
    return Success(Image(h.width, h.height, pix[..]));
  }

  /** The loop of `Decode`, filling `pix` from the chunks at `start`; false
      when a chunk is cut short. */
  method DecodePixels(data: seq<byte>, start: nat, n: nat, pix: array<byte>) returns (ok: bool)
    requires start <= |data| && pix[..] == Zeros(4 * n)
    modifies pix
    ensures var b := DecodeBody(AsWritten, data, start, 0, Start, EmptyCache(), n);
      ok == b.Ended? && (ok ==> pix[..] == Flatten(b.pixels) + Zeros(4 * (n - |b.pixels|)))
  {
    var index := new Pixel[64](_ => Blank);
    var run: nat := 0;
    var px := Start;
    var pos: nat := start;
    var k := 0;
    ghost var done: seq<Pixel> := [];
    ghost var total := DecodeBody(AsWritten, data, start, 0, Start, EmptyCache(), n);
    assert index[..] == EmptyCache();
    JoinNothing(total);
    while k < n
      invariant 0 <= k <= n && |done| == k && pos <= |data|
      invariant pix.Length == 4 * n && index.Length == 64
      invariant Filled(pix[..], done, n - k)
      invariant Join(done, DecodeBody(AsWritten, data, pos, run, px, index[..], n - k)) == total
    {
      PassThen(AsWritten, data, pos, run, px, index[..], n - k);
      var pass := Advance(data, pos, run, px, index, pix, k, done, n - k);
      if pass.Stop? {
        if pass.result.Truncated? {
          return false;
        }
        FinishedEarly(done, total, pos);
        return true;
      }
      JoinAssociative(done, [pass.px], DecodeBody(AsWritten, data, pass.pos, pass.run, pass.px, pass.cache, n - k - 1));
      px, run, pos := pass.px, pass.run, pass.pos;
      done := done + [px];
      k := k + 1;
    }
    FinishedEarly(done, total, pos);
    return true;
  }

  /** One pass of the loop, with the pixel it emits copied into the buffer. */
  method Advance(data: seq<byte>, pos: nat, run: nat, px: Pixel, index: array<Pixel>, pix: array<byte>, k: nat, ghost done: seq<Pixel>, ghost m: nat) returns (p: Pass)
    requires pos <= |data| && index.Length == 64 && k == |done| && m > 0
    requires Filled(pix[..], done, m)
    modifies index, pix
    ensures p == NextPass(AsWritten, data, pos, run, px, old(index[..]))
    ensures p.Emit? ==> index[..] == p.cache && Filled(pix[..], done + [p.px], m - 1)
    ensures p.Stop? ==> index[..] == old(index[..]) && pix[..] == old(pix[..])
  {
    p := DecodePass(data, pos, run, px, index);
    if p.Emit? {
      CopyPixel(pix, k, p.px, done, m);
    }
  }

  /** The buffer holds the pixels written so far and `m` zero pixels. */
  predicate Filled(pix: seq<byte>, done: seq<Pixel>, m: nat)
  {
    pix == Flatten(done) + Zeros(4 * m)
  }

  /** The loop ends with `Join(done, Ended([], pos))`: exactly `done`. */
  lemma FinishedEarly(done: seq<Pixel>, total: Body, pos: nat)
    requires total == Join(done, Ended([], pos))
    ensures total.Ended? && total.pixels == done
  {
    assert done + [] == done;
  }

  /** With no run pending, a chunk read as `q` with `k` repeats emits `q`,
      caches it, and leaves the rest of the loop to go on after the chunk. */
  lemma DecodeStep(rev: Revision, data: seq<byte>, pos: nat, px: Pixel, cache: Cache, n: nat, q: Pixel, k: nat, next: nat)
    requires pos <= |data| && n > 0
    requires ReadChunk(rev, data, pos, px, cache) == Chunk(q, k, next)
    ensures DecodeBody(rev, data, pos, 0, px, cache, n)
      == Join([q], DecodeBody(rev, data, next, k, q, cache[Slot(q) := q], n - 1))
  {
    PassThen(rev, data, pos, 0, px, cache, n);
  }

  /** A pending run of `k` emits the current pixel `k` times without reading
      anything or changing the cache. */
  lemma {:induction false} RunIterations(rev: Revision, data: seq<byte>, pos: nat, k: nat, px: Pixel, cache: Cache, n: nat)
    requires pos <= |data| && k <= n
    ensures DecodeBody(rev, data, pos, k, px, cache, n)
      == Join(Repeat(px, k), DecodeBody(rev, data, pos, 0, px, cache, n - k))
    decreases k
  {
    if k == 0 {
      JoinNothing(DecodeBody(rev, data, pos, 0, px, cache, n));
    } else {
      var rest := DecodeBody(rev, data, pos, 0, px, cache, n - k);
      PassThen(rev, data, pos, k, px, cache, n);
      RunIterations(rev, data, pos, k - 1, px, cache, n - 1);
      JoinAssociative([px], Repeat(px, k - 1), rest);
      assert [px] + Repeat(px, k - 1) == Repeat(px, k);
    }
  }

  lemma JoinNothing(b: Body)
    ensures Join([], b) == b
  {
    if b.Ended? {
      assert [] + b.pixels == b.pixels;
    }
  }

  lemma JoinAssociative(a: seq<Pixel>, b: seq<Pixel>, c: Body)
    ensures Join(a, Join(b, c)) == Join(a + b, c)
  {
    if c.Ended? {
      assert a + (b + c.pixels) == (a + b) + c.pixels;
    }
  }

  /** Write one pixel's four bytes at the front of the zero tail of the
      buffer (qoi.go:187-188). */
  method CopyPixel(pix: array<byte>, k: nat, px: Pixel, ghost done: seq<Pixel>, ghost m: nat)
    requires k == |done| && m > 0
    requires Filled(pix[..], done, m)
    modifies pix
    ensures Filled(pix[..], done + [px], m - 1)
  {
    pix[4 * k] := px.r;
    pix[4 * k + 1] := px.g;
    pix[4 * k + 2] := px.b;
    pix[4 * k + 3] := px.a;
    FlattenSnoc(done, px);
    assert pix[..] == Flatten(done) + Channels(px) + Zeros(4 * (m - 1));
  }

}
