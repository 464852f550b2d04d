/** Pixels, the colour hash and the 64-slot pixel cache shared by the encoder
    and the decoder (qoi.go). */
module Pixels {
  import opened Bytes

  /** An RGBA pixel: the decoder's `[4]byte` and the encoder's `color.RGBA`. */
  datatype Pixel = Pixel(r: byte, g: byte, b: byte, a: byte)

  /** The "previous pixel" both sides start from: opaque black. */
  const Start := Pixel(0, 0, 0, 255)

  /** The zero value of a pixel, which fills a fresh cache. */
  const Blank := Pixel(0, 0, 0, 0)

  /** `QOI_COLOR_HASH`: the exclusive or of the four channels. */
  function ColorHash(p: Pixel): (h: byte)
  {
    Byte(Xor(Xor(Xor(p.r, p.g), p.b), p.a))
  }

  /** Bitwise exclusive or, one binary digit at a time from the lowest. */
  function Xor(x: nat, y: nat): nat
    decreases x + y, 1
  {
    XorDigits(x, y)
  }

  /** The exclusive or of the higher digits, then that of the lowest. */
  function XorDigits(x: nat, y: nat): nat
    decreases x + y, 0
  {
    if x == 0 && y == 0 then 0
    else 2 * Xor(x / 2, y / 2) + (x % 2 + y % 2) % 2
  }

  /** Zero is the identity of the exclusive or. */
  lemma {:induction false} XorZero(y: nat)
    ensures Xor(0, y) == y && Xor(y, 0) == y
  {
    if y > 0 {
      XorZero(y / 2);
      assert Xor(0, y) == XorDigits(0, y);
      assert Xor(y, 0) == XorDigits(y, 0);
    }
  }

  /** The cache slot of a pixel (qoi.go:183, 241): its hash modulo 64. */
  function Slot(p: Pixel): (s: nat)
    ensures s < 64
  {
    ColorHash(p) % 64
  }

  /** A pixel with no colour hashes to its alpha. */
  lemma BlackHash(p: Pixel)
    requires p.r == 0 && p.g == 0 && p.b == 0
    ensures ColorHash(p) == p.a
  {
    XorZero(0);
    XorZero(p.a);
  }

  /** Opaque black hashes to the last slot of the cache. */
  lemma StartSlot()
    ensures Slot(Start) == 63
  {
    BlackHash(Start);
    assert ColorHash(Start) % 64 == 255 % 64 == 63;
  }

  /** The zero pixel hashes to the first slot. */
  lemma BlankSlot()
    ensures Slot(Blank) == 0
  {
    BlackHash(Blank);
  }

  /** The pixel cache `index`, 64 pixels. */
  type Cache = c: seq<Pixel> | |c| == 64 witness seq(64, i => Blank)

  /** A fresh cache: every slot holds the zero pixel. */
  function EmptyCache(): (c: Cache)
    ensures forall i :: 0 <= i < 64 ==> c[i] == Blank
  {
    seq(64, i => Blank)
  }

  /** The four bytes a pixel occupies in an RGBA `Pix` buffer, in r, g, b, a order. */
  function Channels(p: Pixel): (s: seq<byte>)
    ensures |s| == 4
  {
    [p.r, p.g, p.b, p.a]
  }

  /** The RGBA `Pix` buffer holding `ps` in order, four bytes per pixel. */
  function Flatten(ps: seq<Pixel>): (s: seq<byte>)
    ensures |s| == 4 * |ps|
  {
    if ps == [] then [] else Channels(ps[0]) + Flatten(ps[1..])
  }

  /** `k` copies of `p`. */
  function Repeat(p: Pixel, k: nat): (s: seq<Pixel>)
    ensures |s| == k && forall i :: 0 <= i < k ==> s[i] == p
  {
    seq(k, i => p)
  }

  /** `n` zero bytes: what `image.NewRGBA` leaves in pixels never written. */
  function Zeros(n: nat): (s: seq<byte>)
    ensures |s| == n && forall i :: 0 <= i < n ==> s[i] == 0
  {
    seq(n, i => 0)
  }

  lemma {:induction false} FlattenAppend(a: seq<Pixel>, b: seq<Pixel>)
    ensures Flatten(a + b) == Flatten(a) + Flatten(b)
  {
    if a != [] {
      assert (a + b)[1..] == a[1..] + b;
      FlattenAppend(a[1..], b);
    } else {
      assert a + b == b;
    }
  }

  /** Pixel `i` of the sequence occupies bytes `4*i .. 4*i+4` of the buffer. */
  lemma {:induction false} FlattenAt(ps: seq<Pixel>, i: nat)
    requires i < |ps|
    ensures Flatten(ps)[4 * i..4 * i + 4] == Channels(ps[i])
  {
    if i > 0 {
      FlattenAt(ps[1..], i - 1);
      assert Flatten(ps) == Channels(ps[0]) + Flatten(ps[1..]);
    }
  }

  /** Appending a pixel appends its four channels. */
  lemma FlattenSnoc(ps: seq<Pixel>, p: Pixel)
    ensures Flatten(ps + [p]) == Flatten(ps) + Channels(p)
  {
    FlattenAppend(ps, [p]);
    assert Flatten([p]) == Channels(p) + Flatten([]);
  }
}
