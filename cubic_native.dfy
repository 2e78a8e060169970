/** `jni/cubicpano-jni.cpp`: the native side of the cube conversion. One face
    of the cube is computed from the equirectangular panorama pixel by pixel:
    every face pixel is projected onto the panorama, the four panorama pixels
    around that point are read, and their channels are blended bilinearly.

    Pixels are 32-bit words packed by `createRGBAPixel`; bitmaps are byte
    buffers addressed row by row (`y*stride + x*4`), words stored
    little-endian as on the ARM devices the library is built for. The
    spherical projection is floating-point trigonometry and is a parameter
    here (`project`); the blend is computed on exact reals. */
module CubicNative {
  import opened Common

  type Pixel = bv32

  /** `createRGBAPixel`: alpha in bits 24-31, red 16-23, green 8-15, blue 0-7. */
  function CreateRGBAPixel(red: bv32, green: bv32, blue: bv32, alpha: bv32): Pixel
  {
    (alpha << 24) | (red << 16) | (green << 8) | blue
  }

  /** The `RED`, `GREEN` and `BLUE` macros, and the alpha byte. */
  function Red(p: Pixel): bv32 { (p & 0x00ff0000) >> 16 }
  function Green(p: Pixel): bv32 { (p & 0x0000ff00) >> 8 }
  function Blue(p: Pixel): bv32 { p & 0x000000ff }
  function Alpha(p: Pixel): bv32 { p >> 24 }

  /** Packing channels below 256 and unpacking them gives them back, and a
      pixel is determined by its four channels. */
  lemma {:induction false} ChannelsRoundTrip(red: bv32, green: bv32, blue: bv32, alpha: bv32)
    requires red < 256 && green < 256 && blue < 256 && alpha < 256
    ensures var p := CreateRGBAPixel(red, green, blue, alpha);
      Red(p) == red && Green(p) == green && Blue(p) == blue && Alpha(p) == alpha
  {
  }

  lemma {:induction false} PixelOfChannels(p: Pixel)
    ensures CreateRGBAPixel(Red(p), Green(p), Blue(p), Alpha(p)) == p
  {
  }

  // ---------------------------------------------------------------------
  // Pixel memory

  /** The word stored little-endian in four bytes. */
  function Word(b0: bv8, b1: bv8, b2: bv8, b3: bv8): Pixel
  {
    (b0 as bv32) | ((b1 as bv32) << 8) | ((b2 as bv32) << 16) | ((b3 as bv32) << 24)
  }

  /** Byte `k` of a word as it lies in memory. */
  function ByteOf(p: Pixel, k: nat): bv8
    requires k < 4
  {
    if k == 0 then (p & 0xff) as bv8
    else if k == 1 then ((p >> 8) & 0xff) as bv8
    else if k == 2 then ((p >> 16) & 0xff) as bv8
    else (p >> 24) as bv8
  }

  /** Writing a word's bytes and reading them back gives the word. */
  lemma {:induction false} WordOfBytes(p: Pixel)
    ensures Word(ByteOf(p, 0), ByteOf(p, 1), ByteOf(p, 2), ByteOf(p, 3)) == p
  {
  }

  /** In memory order the `BLUE`, `GREEN` and `RED` macros read bytes 0, 1
      and 2 of a pixel, and byte 3 is the alpha byte: the `RED` macro reads
      the third byte, whatever colour the bitmap format stores there. */
  lemma {:induction false} ChannelBytes(b0: bv8, b1: bv8, b2: bv8, b3: bv8)
    ensures var p := Word(b0, b1, b2, b3);
      Blue(p) == b0 as bv32 && Green(p) == b1 as bv32 && Red(p) == b2 as bv32 && Alpha(p) == b3 as bv32
  {
  }

  /** The byte address of pixel (x, y). */
  function Address(stride: int, x: int, y: int): int
  {
    y * stride + x * 4
  }

  /** `getPixelRGBA`: the word at a byte address. */
  function PixelAt(mem: seq<bv8>, a: int): Pixel
    requires 0 <= a && a + 4 <= |mem|
  {
    Word(mem[a], mem[a + 1], mem[a + 2], mem[a + 3])
  }

  /** The memory after the word `p` is written at byte address `a`. */
  function Store(mem: seq<bv8>, a: int, p: Pixel): (r: seq<bv8>)
    requires 0 <= a && a + 4 <= |mem|
    ensures |r| == |mem|
    ensures forall i :: 0 <= i < |mem| && !(a <= i < a + 4) ==> r[i] == mem[i]
  {
    mem[a := ByteOf(p, 0)][a + 1 := ByteOf(p, 1)][a + 2 := ByteOf(p, 2)][a + 3 := ByteOf(p, 3)]
  }

  /** A stored word reads back unchanged. */
  lemma {:induction false} StoreThenLoad(mem: seq<bv8>, a: int, p: Pixel)
    requires 0 <= a && a + 4 <= |mem|
    ensures PixelAt(Store(mem, a, p), a) == p
  {
    WordOfBytes(p);
  }

  /** A word whose bytes do not overlap the stored ones is not changed. */
  lemma {:induction false} StoreElsewhere(mem: seq<bv8>, a: int, b: int, p: Pixel)
    requires 0 <= a && a + 4 <= |mem| && 0 <= b && b + 4 <= |mem|
    requires b + 4 <= a || a + 4 <= b
    ensures PixelAt(Store(mem, a, p), b) == PixelAt(mem, b)
  {
  }

  /** `setPixelRGBA` on a locked pixel buffer. */
  method SetPixelRGBA(pixels: array<bv8>, stride: int, x: int, y: int, pixel: Pixel)
    requires 0 <= Address(stride, x, y) && Address(stride, x, y) + 4 <= pixels.Length
    modifies pixels
    ensures pixels[..] == Store(old(pixels[..]), Address(stride, x, y), pixel)
  {
    var a := y * stride + x * 4;
    pixels[a] := ByteOf(pixel, 0);
    pixels[a + 1] := ByteOf(pixel, 1);
    pixels[a + 2] := ByteOf(pixel, 2);
    pixels[a + 3] := ByteOf(pixel, 3);
  }

  /** A bitmap's layout as `AndroidBitmap_getInfo` reports it. */
  datatype Format = RGBA_8888 | RGB_565 | RGBA_4444 | A_8 | NoFormat
  datatype BitmapInfo = BitmapInfo(width: int, height: int, stride: int, format: Format)

  /** What Android guarantees of a bitmap it describes: it is not empty, its
      buffer holds every row, and a row of 32-bit pixels fits in the stride. */
  predicate Laid(info: BitmapInfo, length: int)
  {
    && info.width > 0 && info.height > 0
    && (info.format == RGBA_8888 ==> info.stride >= 4 * info.width)
    && length >= info.height * info.stride
  }

  /** Multiplying by at least one does not make a non-negative number smaller. */
  lemma {:induction false} MulAtLeastOnce(d: int, s: int)
    requires d >= 1 && s >= 0
    ensures d * s >= s
  {
  }

  /** Row `y` ends before row `y'` starts. */
  lemma {:induction false} RowsApart(y: int, y': int, stride: int)
    requires 0 <= y < y' && stride >= 0
    ensures y * stride + stride <= y' * stride
  {
    MulAtLeastOnce(y' - y, stride);
    assert (y' - y) * stride == y' * stride - y * stride;
  }

  /** Every pixel of a laid-out bitmap lies inside its buffer. */
  lemma {:induction false} PixelInBuffer(info: BitmapInfo, length: int, x: int, y: int)
    requires Laid(info, length) && info.format == RGBA_8888
    requires 0 <= x < info.width && 0 <= y < info.height
    ensures 0 <= Address(info.stride, x, y) && Address(info.stride, x, y) + 4 <= length
  {
    RowsApart(y, info.height, info.stride);
    if y > 0 {
      MulAtLeastOnce(y, info.stride);
    }
  }

  /** Two different pixels of a row-laid bitmap never share a byte. */
  lemma {:induction false} PixelsApart(stride: int, width: int, x: int, y: int, x': int, y': int)
    requires stride >= 4 * width
    requires 0 <= x < width && 0 <= y && 0 <= x' < width && 0 <= y'
    requires (x, y) != (x', y')
    ensures Address(stride, x, y) + 4 <= Address(stride, x', y') || Address(stride, x', y') + 4 <= Address(stride, x, y)
  {
    if y < y' {
      RowsApart(y, y', stride);
    } else if y' < y {
      RowsApart(y', y, stride);
    }
  }

  // ---------------------------------------------------------------------
  // Sampling the panorama

  /** C's `/` on a positive divisor: the quotient is truncated toward zero. */
  function CQuot(a: int, b: int): int
    requires b > 0
  {
    if a >= 0 then a / b else -((-a) / b)
  }

  /** C's `%`: the remainder goes with the truncated quotient, so it takes
      the sign of the dividend. */
  function CRem(a: int, b: int): (r: int)
    requires b > 0
    ensures 0 <= a ==> 0 <= r < b
    ensures a < 0 ==> -b < r <= 0
    ensures a == CQuot(a, b) * b + r
  {
    if a >= 0 then a % b
    else
      var q := (-a) / b;
      assert -a == q * b + (-a) % b;
      assert (-q) * b == -(q * b);
      -((-a) % b)
  }

  /** A non-negative pixel coordinate on the panorama. */
  type Coord = v: real | v >= 0.0

  /** `(int)` on a non-negative coordinate: the largest integer not above it. */
  function Truncate(v: Coord): (n: nat)
    ensures n as real <= v < n as real + 1.0
  {
    v.Floor
  }

  /** Column or row `a` of a bitmap `n` wide or high, wrapped with `%`. */
  function Wrap(a: int, n: int): (r: int)
    requires a >= 0 && n > 0
    ensures 0 <= r < n
    ensures a < n ==> r == a
    ensures a == n ==> r == 0
  {
    if a < n then a else if a == n then 0 else CRem(a, n)
  }

  /** The four pixels blended for point (x, y): the pixel the point falls in
      (`(int)` truncates, which is the floor for a non-negative coordinate),
      its right and lower neighbours and the one diagonally below, with the
      coordinates wrapped by `%` so that the last column and row are followed
      by the first ones. */
  function Neighbours(width: int, height: int, x: Coord, y: Coord): (r: seq<(int, int)>)
    requires width > 0 && height > 0
    ensures |r| == 4
    ensures forall k :: 0 <= k < 4 ==> 0 <= r[k].0 < width && 0 <= r[k].1 < height
  {
    var x1, y1 := Truncate(x), Truncate(y);
    [(Wrap(x1, width), Wrap(y1, height)), (Wrap(x1 + 1, width), Wrap(y1, height)),
     (Wrap(x1, width), Wrap(y1 + 1, height)), (Wrap(x1 + 1, width), Wrap(y1 + 1, height))]
  }

  /** The point's own pixel is the one it falls in, and its neighbours are
      the next column and row, except past the last column or row, where
      they are the first one. */
  lemma {:induction false} NeighboursWrap(width: int, height: int, x: Coord, y: Coord)
    requires width > 0 && height > 0
    requires Truncate(x) < width && Truncate(y) < height
    ensures var n := Neighbours(width, height, x, y);
      && n[0] == (Truncate(x), Truncate(y))
      && n[3].0 == (if Truncate(x) + 1 == width then 0 else Truncate(x) + 1)
      && n[3].1 == (if Truncate(y) + 1 == height then 0 else Truncate(y) + 1)
  {
  }

  /** The four panorama pixels around (x, y), read with `getPixelRGBA`. */
  function Samples(pano: seq<bv8>, info: BitmapInfo, x: Coord, y: Coord): (ps: seq<Pixel>)
    requires Laid(info, |pano|) && info.format == RGBA_8888
    ensures |ps| == 4
  {
    var n := Neighbours(info.width, info.height, x, y);
    seq(4, j requires 0 <= j < 4 => SampleAt(pano, info, n[j]))
  }

  /** `getPixelRGBA` at one pixel of a laid-out bitmap. */
  function SampleAt(pano: seq<bv8>, info: BitmapInfo, xy: (int, int)): Pixel
    requires Laid(info, |pano|) && info.format == RGBA_8888
    requires 0 <= xy.0 < info.width && 0 <= xy.1 < info.height
  {
    PixelInBuffer(info, |pano|, xy.0, xy.1);
    PixelAt(pano, Address(info.stride, xy.0, xy.1))
  }

  /** The samples are the words at the addresses of the four neighbours. */
  lemma {:induction false} SamplesRead(pano: seq<bv8>, info: BitmapInfo, x: Coord, y: Coord, j: int)
    requires Laid(info, |pano|) && info.format == RGBA_8888 && 0 <= j < 4
    ensures var n := Neighbours(info.width, info.height, x, y);
      && 0 <= Address(info.stride, n[j].0, n[j].1) && Address(info.stride, n[j].0, n[j].1) + 4 <= |pano|
      && Samples(pano, info, x, y)[j] == PixelAt(pano, Address(info.stride, n[j].0, n[j].1))
  {
    var n := Neighbours(info.width, info.height, x, y);
    PixelInBuffer(info, |pano|, n[j].0, n[j].1);
  }

  /** One colour channel as an integer: 0 blue, 1 green, 2 red. */
  function Channel(p: Pixel, k: nat): bv8
    requires k < 3
  {
    if k == 0 then Blue(p) as bv8 else if k == 1 then Green(p) as bv8 else Red(p) as bv8
  }

  /** Two values weighted `w1` and `w2`. */
  function Lerp(a: real, b: real, w1: real, w2: real): real
  {
    w1 * a + w2 * b
  }

  /** The weights along one axis: `x2 - x` for the pixel the point falls in
      and `x - x1` for the next one; both between 0 and 1, summing to 1. */
  function Weights(v: Coord): (w: (real, real))
    ensures 0.0 <= w.0 && 0.0 <= w.1 && w.0 + w.1 == 1.0
  {
    ((Truncate(v) + 1) as real - v, v - Truncate(v) as real)
  }

  /** One channel of the blend: first along x, then along y, rounded by
      `(int)(v + 0.5)`. */
  function Blend(c1: int, c2: int, c3: int, c4: int, x: Coord, y: Coord): int
  {
    var (wx1, wx2) := Weights(x);
    var (wy1, wy2) := Weights(y);
    var c12 := Lerp(c1 as real, c2 as real, wx1, wx2);
    var c34 := Lerp(c3 as real, c4 as real, wx1, wx2);
    (Lerp(c12, c34, wy1, wy2) + 0.5).Floor
  }

  function Min4(a: int, b: int, c: int, d: int): int { Min(Min(a, b), Min(c, d)) }
  function Max4(a: int, b: int, c: int, d: int): int { -Min4(-a, -b, -c, -d) }

  /** Scaling by a non-negative weight keeps the order. */
  lemma {:induction false} ScaleMono(w: real, a: real, b: real)
    requires 0.0 <= w && a <= b
    ensures w * a <= w * b
  {
    assert w * b - w * a == w * (b - a);
  }

  lemma {:induction false} LerpAbove(a: real, b: real, w1: real, w2: real, lo: real)
    requires 0.0 <= w1 && 0.0 <= w2 && lo <= a && lo <= b
    ensures Lerp(lo, lo, w1, w2) <= Lerp(a, b, w1, w2)
  {
    ScaleMono(w1, lo, a);
    ScaleMono(w2, lo, b);
  }

  lemma {:induction false} LerpBelow(a: real, b: real, w1: real, w2: real, hi: real)
    requires 0.0 <= w1 && 0.0 <= w2 && a <= hi && b <= hi
    ensures Lerp(a, b, w1, w2) <= Lerp(hi, hi, w1, w2)
  {
    ScaleMono(w1, a, hi);
    ScaleMono(w2, b, hi);
  }

  /** Weights summing to one leave a value alone. */
  lemma {:induction false} LerpSame(v: real, w1: real, w2: real)
    requires w1 + w2 == 1.0
    ensures Lerp(v, v, w1, w2) == v
  {
    assert w1 * v + w2 * v == (w1 + w2) * v;
  }

  /** A weighted mean stays within any bounds both values keep. */
  lemma {:induction false} LerpBetween(a: real, b: real, w1: real, w2: real, lo: real, hi: real)
    requires 0.0 <= w1 && 0.0 <= w2 && w1 + w2 == 1.0
    requires lo <= a <= hi && lo <= b <= hi
    ensures lo <= Lerp(a, b, w1, w2) <= hi
  {
    LerpAbove(a, b, w1, w2, lo);
    LerpBelow(a, b, w1, w2, hi);
    LerpSame(lo, w1, w2);
    LerpSame(hi, w1, w2);
  }

  /** Rounding a value between two integers stays between them. */
  lemma {:induction false} RoundBetween(v: real, lo: int, hi: int)
    requires lo as real <= v <= hi as real
    ensures lo <= (v + 0.5).Floor <= hi
  {
  }

  /** The blend stays within any bounds all four channels keep. */
  lemma {:induction false} BlendWithin(c1: int, c2: int, c3: int, c4: int, x: Coord, y: Coord, lo: int, hi: int)
    requires lo <= c1 <= hi && lo <= c2 <= hi && lo <= c3 <= hi && lo <= c4 <= hi
    ensures lo <= Blend(c1, c2, c3, c4, x, y) <= hi
  {
    var (wx1, wx2) := Weights(x);
    var (wy1, wy2) := Weights(y);
    var c12 := Lerp(c1 as real, c2 as real, wx1, wx2);
    var c34 := Lerp(c3 as real, c4 as real, wx1, wx2);
    LerpBetween(c1 as real, c2 as real, wx1, wx2, lo as real, hi as real);
    LerpBetween(c3 as real, c4 as real, wx1, wx2, lo as real, hi as real);
    LerpBetween(c12, c34, wy1, wy2, lo as real, hi as real);
    RoundBetween(Lerp(c12, c34, wy1, wy2), lo, hi);
  }

  /** The blend never leaves the range of the four channels it mixes. */
  lemma {:induction false} BlendBounds(c1: int, c2: int, c3: int, c4: int, x: Coord, y: Coord)
    ensures Min4(c1, c2, c3, c4) <= Blend(c1, c2, c3, c4, x, y) <= Max4(c1, c2, c3, c4)
  {
    BlendWithin(c1, c2, c3, c4, x, y, Min4(c1, c2, c3, c4), Max4(c1, c2, c3, c4));
  }

  /** Four equal channels blend to that channel: the weights sum to one. */
  lemma {:induction false} BlendUniform(c: int, x: Coord, y: Coord)
    ensures Blend(c, c, c, c, x, y) == c
  {
    BlendWithin(c, c, c, c, x, y, c, c);
  }

  /** One channel of the blended pixel; the blend of values in 0..255 is
      again in 0..255, so it fits the channel's byte. */
  function MixChannel(ps: seq<Pixel>, k: nat, x: Coord, y: Coord): bv8
    requires |ps| == 4 && k < 3
  {
    var c1, c2, c3, c4 := Channel(ps[0], k) as int, Channel(ps[1], k) as int, Channel(ps[2], k) as int, Channel(ps[3], k) as int;
    BlendWithin(c1, c2, c3, c4, x, y, 0, 255);
    ToByte(Blend(c1, c2, c3, c4, x, y))
  }

  /** Channel `k` value `v` lies between the least and the greatest of the
      samples' channel `k`. */
  predicate WithinSamples(ps: seq<Pixel>, k: nat, v: bv8)
    requires |ps| == 4 && k < 3
  {
    var c1, c2, c3, c4 := Channel(ps[0], k) as int, Channel(ps[1], k) as int, Channel(ps[2], k) as int, Channel(ps[3], k) as int;
    Min4(c1, c2, c3, c4) <= v as int <= Max4(c1, c2, c3, c4)
  }

  /** A channel of the blend lies between the least and the greatest of the
      samples' channels. */
  lemma {:induction false} MixChannelBounds(ps: seq<Pixel>, k: nat, x: Coord, y: Coord)
    requires |ps| == 4 && k < 3
    ensures WithinSamples(ps, k, MixChannel(ps, k, x, y))
  {
    var c1, c2, c3, c4 := Channel(ps[0], k) as int, Channel(ps[1], k) as int, Channel(ps[2], k) as int, Channel(ps[3], k) as int;
    BlendBounds(c1, c2, c3, c4, x, y);
    BlendWithin(c1, c2, c3, c4, x, y, 0, 255);
    ToByteValue(Blend(c1, c2, c3, c4, x, y));
  }

  /** The C conversion of an `int` in 0..255 to a channel byte. */
  function ToByte(v: int): (b: bv8)
    requires 0 <= v < 256
  {
    if v == 0 then 0 else ToByte(v - 1) + 1
  }

  /** The conversion keeps the value. */
  lemma {:induction false} ToByteValue(v: int)
    requires 0 <= v < 256
    ensures ToByte(v) as int == v
  {
    if v > 0 {
      ToByteValue(v - 1);
      SuccNoWrap(ToByte(v - 1));
    }
  }

  lemma {:induction false} SuccNoWrap(b: bv8)
    requires b as int < 255
    ensures (b + 1) as int == b as int + 1
  {
  }

  lemma {:induction false} ByteOfValue(b: bv8)
    ensures ToByte(b as int) == b
  {
    ToByteValue(b as int);
  }

  /** `getBilinearInterpolatedPixel`: each channel of the four samples
      blended, alpha set to 0. */
  function BilinearPixel(pano: seq<bv8>, info: BitmapInfo, x: Coord, y: Coord): Pixel
    requires Laid(info, |pano|) && info.format == RGBA_8888
  {
    var ps := Samples(pano, info, x, y);
    CreateRGBAPixel(MixChannel(ps, 2, x, y) as bv32, MixChannel(ps, 1, x, y) as bv32, MixChannel(ps, 0, x, y) as bv32, 0)
  }

  /** A channel's byte widened is the macro's value. */
  lemma {:induction false} ChannelBits(p: Pixel)
    ensures Channel(p, 0) as bv32 == Blue(p) && Channel(p, 1) as bv32 == Green(p) && Channel(p, 2) as bv32 == Red(p)
  {
  }

  /** A transparent pixel packed from three channel bytes gives them back. */
  lemma {:induction false} ChannelsOfPixel(p: Pixel, red: bv8, green: bv8, blue: bv8)
    requires p == CreateRGBAPixel(red as bv32, green as bv32, blue as bv32, 0)
    ensures Alpha(p) == 0 && Channel(p, 0) == blue && Channel(p, 1) == green && Channel(p, 2) == red
  {
    ChannelsRoundTrip(red as bv32, green as bv32, blue as bv32, 0);
  }

  /** The blended pixel is transparent, and each of its colour channels is
      the blend of the same channel of the four samples, between their least
      and greatest: the colours are mixed channel by channel and never
      swapped. */
  lemma {:induction false} BilinearChannels(pano: seq<bv8>, info: BitmapInfo, x: Coord, y: Coord)
    requires Laid(info, |pano|) && info.format == RGBA_8888
    ensures var p, ps := BilinearPixel(pano, info, x, y), Samples(pano, info, x, y);
      && Alpha(p) == 0
      && Channel(p, 0) == MixChannel(ps, 0, x, y)
      && Channel(p, 1) == MixChannel(ps, 1, x, y)
      && Channel(p, 2) == MixChannel(ps, 2, x, y)
      && WithinSamples(ps, 0, Channel(p, 0)) && WithinSamples(ps, 1, Channel(p, 1)) && WithinSamples(ps, 2, Channel(p, 2))
  {
    var ps := Samples(pano, info, x, y);
    BilinearMixes(pano, info, x, y);
    MixChannelBounds(ps, 0, x, y);
    MixChannelBounds(ps, 1, x, y);
    MixChannelBounds(ps, 2, x, y);
  }

  /** The packed blend holds the three mixed channels and no alpha. */
  lemma {:induction false} BilinearMixes(pano: seq<bv8>, info: BitmapInfo, x: Coord, y: Coord)
    requires Laid(info, |pano|) && info.format == RGBA_8888
    ensures var p, ps := BilinearPixel(pano, info, x, y), Samples(pano, info, x, y);
      && Alpha(p) == 0
      && Channel(p, 0) == MixChannel(ps, 0, x, y)
      && Channel(p, 1) == MixChannel(ps, 1, x, y)
      && Channel(p, 2) == MixChannel(ps, 2, x, y)
  {
    var ps := Samples(pano, info, x, y);
    ChannelsOfPixel(BilinearPixel(pano, info, x, y), MixChannel(ps, 2, x, y), MixChannel(ps, 1, x, y), MixChannel(ps, 0, x, y));
  }

  /** Where the four samples agree, the blend gives their colour back with
      alpha cleared. */
  lemma {:induction false} BilinearUniform(pano: seq<bv8>, info: BitmapInfo, x: Coord, y: Coord)
    requires Laid(info, |pano|) && info.format == RGBA_8888
    requires var ps := Samples(pano, info, x, y); ps[1] == ps[0] && ps[2] == ps[0] && ps[3] == ps[0]
    ensures var p := Samples(pano, info, x, y)[0];
      BilinearPixel(pano, info, x, y) == CreateRGBAPixel(Red(p), Green(p), Blue(p), 0)
  {
    var ps := Samples(pano, info, x, y);
    var p := ps[0];
    BlendUniform(Channel(p, 0) as int, x, y);
    BlendUniform(Channel(p, 1) as int, x, y);
    BlendUniform(Channel(p, 2) as int, x, y);
    ByteOfValue(Channel(p, 0));
    ByteOfValue(Channel(p, 1));
    ByteOfValue(Channel(p, 2));
    assert MixChannel(ps, 0, x, y) == Channel(p, 0);
    assert MixChannel(ps, 1, x, y) == Channel(p, 1);
    assert MixChannel(ps, 2, x, y) == Channel(p, 2);
    ChannelBits(p);
  }

  // ---------------------------------------------------------------------
  // calculateCubeSide

  /** Why `calculateCubeSide` returned, in the order it checks. */
  datatype Status =
    | Converted
    | NoPanoInfo | NoFaceInfo
    | PanoNotTwoToOne | FaceNotSquare | FormatsDiffer | NotRGBA8888
    | PanoNotLocked | FaceNotLocked

  /** The checks before any pixel is touched; `None` info stands for a
      failed `AndroidBitmap_getInfo`, a false `...Locks` for a failed
      `AndroidBitmap_lockPixels`. */
  function Validate(panoInfo: Option<BitmapInfo>, faceInfo: Option<BitmapInfo>, panoLocks: bool, faceLocks: bool): Status
  {
    if panoInfo.None? then NoPanoInfo
    else if faceInfo.None? then NoFaceInfo
    else if panoInfo.value.width != 2 * panoInfo.value.height then PanoNotTwoToOne
    else if faceInfo.value.width != faceInfo.value.height then FaceNotSquare
    else if faceInfo.value.format != panoInfo.value.format then FormatsDiffer
    else if panoInfo.value.format != RGBA_8888 then NotRGBA8888
    else if !panoLocks then PanoNotLocked
    else if !faceLocks then FaceNotLocked
    else Converted
  }

  /** A face is computed exactly when both bitmaps are described and locked,
      the panorama is twice as wide as high, the face is square, and both
      are RGBA_8888. */
  lemma {:induction false} ValidateConverts(panoInfo: Option<BitmapInfo>, faceInfo: Option<BitmapInfo>, panoLocks: bool, faceLocks: bool)
    ensures Validate(panoInfo, faceInfo, panoLocks, faceLocks) == Converted <==>
      && panoInfo.Some? && faceInfo.Some?
      && panoInfo.value.width == 2 * panoInfo.value.height
      && faceInfo.value.width == faceInfo.value.height
      && panoInfo.value.format == RGBA_8888 && faceInfo.value.format == RGBA_8888
      && panoLocks && faceLocks
  {
  }

  /** The colour a face pixel gets: the panorama blended at the point the
      face pixel projects to. */
  function FacePixel(pano: seq<bv8>, panoInfo: BitmapInfo, project: (int, int) -> (Coord, Coord), xt: int, yt: int): Pixel
    requires Laid(panoInfo, |pano|) && panoInfo.format == RGBA_8888
  {
    BilinearPixel(pano, panoInfo, project(xt, yt).0, project(xt, yt).1)
  }

  /** Column by column, the face pixels before (x, y) hold their colour. */
  predicate Painted(face: seq<bv8>, faceInfo: BitmapInfo, pano: seq<bv8>, panoInfo: BitmapInfo,
                    project: (int, int) -> (Coord, Coord), x: int, y: int)
    requires Laid(panoInfo, |pano|) && panoInfo.format == RGBA_8888
    requires Laid(faceInfo, |face|) && faceInfo.format == RGBA_8888
  {
    forall x', y' :: 0 <= x' < faceInfo.width && 0 <= y' < faceInfo.height && (x' < x || (x' == x && y' < y)) ==>
      (PixelInBuffer(faceInfo, |face|, x', y');
       PixelAt(face, Address(faceInfo.stride, x', y')) == FacePixel(pano, panoInfo, project, x', y'))
  }

  /** Byte `c` of row `y`. */
  function RowByte(stride: int, y: int, c: int): int
  {
    y * stride + c
  }

  /** The bytes past the last pixel of each row, and past the last row,
      keep what they held in `before`. */
  predicate PaddingKept(face: seq<bv8>, before: seq<bv8>, faceInfo: BitmapInfo)
    requires |face| == |before|
  {
    && (forall i :: 0 <= i < |face| && faceInfo.height * faceInfo.stride <= i ==> face[i] == before[i])
    && (forall y, c ::
          (0 <= y < faceInfo.height && 4 * faceInfo.width <= c < faceInfo.stride && 0 <= RowByte(faceInfo.stride, y, c) < |face|) ==>
          face[RowByte(faceInfo.stride, y, c)] == before[RowByte(faceInfo.stride, y, c)])
  }

  /** Writing pixel (x, y) with its colour extends the painted pixels by one. */
  lemma {:induction false} PaintExtends(face: seq<bv8>, faceInfo: BitmapInfo, pano: seq<bv8>, panoInfo: BitmapInfo,
                     project: (int, int) -> (Coord, Coord), x: int, y: int)
    requires Laid(panoInfo, |pano|) && panoInfo.format == RGBA_8888
    requires Laid(faceInfo, |face|) && faceInfo.format == RGBA_8888
    requires 0 <= x < faceInfo.width && 0 <= y < faceInfo.height
    requires Painted(face, faceInfo, pano, panoInfo, project, x, y)
    ensures 0 <= Address(faceInfo.stride, x, y) && Address(faceInfo.stride, x, y) + 4 <= |face|
    ensures var face' := Store(face, Address(faceInfo.stride, x, y), FacePixel(pano, panoInfo, project, x, y));
      Painted(face', faceInfo, pano, panoInfo, project, x, y + 1)
  {
    PixelInBuffer(faceInfo, |face|, x, y);
    var stride := faceInfo.stride;
    var a := Address(stride, x, y);
    var p := FacePixel(pano, panoInfo, project, x, y);
    var face' := Store(face, a, p);
    StoreThenLoad(face, a, p);
    forall x', y' | 0 <= x' < faceInfo.width && 0 <= y' < faceInfo.height && (x' < x || (x' == x && y' < y + 1))
      ensures 0 <= Address(stride, x', y') && Address(stride, x', y') + 4 <= |face'|
      ensures PixelAt(face', Address(stride, x', y')) == FacePixel(pano, panoInfo, project, x', y')
    {
      PixelInBuffer(faceInfo, |face|, x', y');
      if (x', y') != (x, y) {
        PixelsApart(stride, faceInfo.width, x, y, x', y');
        StoreElsewhere(face, a, Address(stride, x', y'), p);
      }
    }
  }

  /** Writing a pixel leaves the padding bytes alone. */
  lemma {:induction false} PaintKeepsPadding(face: seq<bv8>, before: seq<bv8>, faceInfo: BitmapInfo, x: int, y: int, p: Pixel)
    requires Laid(faceInfo, |face|) && faceInfo.format == RGBA_8888 && |before| == |face|
    requires 0 <= x < faceInfo.width && 0 <= y < faceInfo.height
    requires PaddingKept(face, before, faceInfo)
    ensures 0 <= Address(faceInfo.stride, x, y) && Address(faceInfo.stride, x, y) + 4 <= |face|
    ensures PaddingKept(Store(face, Address(faceInfo.stride, x, y), p), before, faceInfo)
  {
    PixelInBuffer(faceInfo, |face|, x, y);
    var stride := faceInfo.stride;
    var face' := Store(face, Address(stride, x, y), p);
    RowsApart(y, faceInfo.height, stride);
    forall y', c | 0 <= y' < faceInfo.height && 4 * faceInfo.width <= c < stride && 0 <= RowByte(stride, y', c) < |face|
      ensures face'[RowByte(stride, y', c)] == before[RowByte(stride, y', c)]
    {
      if y' < y {
        RowsApart(y', y, stride);
      } else if y < y' {
        RowsApart(y, y', stride);
      }
    }
  }

  /** `calculateCubeSide`: after the checks, every pixel of the face, column
      by column, gets the panorama blended at the point it projects to;
      `project` stands for `textureToCubeCoordinates`,
      `cubeToSphericalCoordinates` and the scaling in
      `getEquirectangularPixel`. When a check fails the face is left as it
      was; when the conversion runs, every face pixel holds its colour and
      the bytes outside the pixels are untouched. */
  method CalculateCubeSide(pano: seq<bv8>, panoInfo: Option<BitmapInfo>, panoLocks: bool,
                           face: array<bv8>, faceInfo: Option<BitmapInfo>, faceLocks: bool,
                           project: (int, int) -> (Coord, Coord))
    returns (status: Status)
    requires panoInfo.Some? ==> Laid(panoInfo.value, |pano|)
    requires faceInfo.Some? ==> Laid(faceInfo.value, face.Length)
    modifies face
    ensures status == Validate(panoInfo, faceInfo, panoLocks, faceLocks)
    ensures status != Converted ==> face[..] == old(face[..])
    ensures status == Converted ==>
      && Painted(face[..], faceInfo.value, pano, panoInfo.value, project, faceInfo.value.width, 0)
      && PaddingKept(face[..], old(face[..]), faceInfo.value)
  {
    status := Validate(panoInfo, faceInfo, panoLocks, faceLocks);
    if status != Converted {
      return;
    }
    var pi, fi := panoInfo.value, faceInfo.value;
    var xTexture := 0;
    while xTexture < fi.width
      invariant 0 <= xTexture <= fi.width
      invariant face.Length == |old(face[..])|
      invariant Painted(face[..], fi, pano, pi, project, xTexture, 0)
      invariant PaddingKept(face[..], old(face[..]), fi)
    {
      var yTexture := 0;
      while yTexture < fi.height
        invariant 0 <= yTexture <= fi.height
        invariant face.Length == |old(face[..])|
        invariant Painted(face[..], fi, pano, pi, project, xTexture, yTexture)
        invariant PaddingKept(face[..], old(face[..]), fi)
      {
        var (x, y) := project(xTexture, yTexture);
        var pixel := BilinearPixel(pano, pi, x, y);
        PaintExtends(face[..], fi, pano, pi, project, xTexture, yTexture);
        PaintKeepsPadding(face[..], old(face[..]), fi, xTexture, yTexture, pixel);
        SetPixelRGBA(face, fi.stride, xTexture, yTexture, pixel);
        yTexture := yTexture + 1;
      }
      xTexture := xTexture + 1;
    }
  }
}
