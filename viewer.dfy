/** The integer logic of `PanoViewerActivity.java`: the texture size, the
    download of the panorama into the decoder's pipe, the checks on the
    decoded image, the conversion into six cube faces, and the restore of a
    saved cube. */
module PanoViewer {
  import opened Common
  import opened Cubic
  import CubicNative

  // ---------------------------------------------------------------------------
  // Powers of two

  function Pow2(k: nat): (p: nat)
    ensures p >= 1
  {
    if k == 0 then 1 else 2 * Pow2(k - 1)
  }

  lemma {:induction false} Pow2Monotone(a: nat, b: nat)
    requires a < b
    ensures Pow2(a) < Pow2(b)
    decreases b
  {
    if a < b - 1 {
      Pow2Monotone(a, b - 1);
    }
  }

  /** The least exponent `e >= k` whose power of two reaches `number`. */
  function CeilExp(number: int, k: nat): nat
    decreases number - Pow2(k)
  {
    if Pow2(k) < number then CeilExp(number, k + 1) else k
  }

  /** `Pow2(CeilExp(number, 0))` is the smallest power of two that is at
      least `number`: 1 for `number <= 1`, and at most 2^30 when `number` is. */
  lemma {:induction false} CeilExpIsSmallest(number: int, k: nat)
    requires k == 0 || Pow2(k - 1) < number
    ensures var e := CeilExp(number, k);
      && e >= k && Pow2(e) >= number && (e == 0 || Pow2(e - 1) < number)
      && (number <= Pow2(30) ==> e <= 30)
    decreases number - Pow2(k)
  {
    if Pow2(k) < number {
      CeilExpIsSmallest(number, k + 1);
    }
    var e := CeilExp(number, k);
    if number <= Pow2(30) && e > 30 {
      Pow2Monotone(30, e - 1);
    }
  }

  const INT_TWO_POW_30: int := 0x4000_0000

  /** 2^30 is the largest power of two a Java `int` holds. */
  lemma {:induction false} Pow2Thirty()
    ensures Pow2(30) == INT_TWO_POW_30
    ensures IsInt32(Pow2(30)) && !IsInt32(Pow2(31))
  {
    assert Pow2(10) == 1024;
    assert Pow2(20) == 1024 * Pow2(10) by {
      Pow2Shift(10, 10);
    }
    assert Pow2(30) == 1024 * Pow2(20) by {
      Pow2Shift(20, 10);
    }
  }

  lemma {:induction false} Pow2Shift(a: nat, b: nat)
    ensures Pow2(a + b) == Pow2(b) * Pow2(a)
    decreases b
  {
    if b > 0 {
      Pow2Shift(a, b - 1);
      assert Pow2(a + b) == 2 * Pow2(a + b - 1);
    }
  }

  /** `toPowerOfTwo`: doubles from 1 until the number is reached.  The caller
      must keep `number <= 2^30`: beyond that the doubling overflows (see
      `DoublingOverflows`). */
  method ToPowerOfTwo(number: int) returns (n2: int)
    requires number <= INT_TWO_POW_30
    ensures n2 == Pow2(CeilExp(number, 0))
    ensures n2 >= number && (n2 == 1 || n2 / 2 < number) && IsInt32(n2)
  {
    CeilExpIsSmallest(number, 0);
    Pow2Thirty();
    n2 := 1;
    ghost var k: nat := 0;
    while n2 < number
      invariant n2 == Pow2(k) && k <= CeilExp(number, 0)
      invariant CeilExp(number, k) == CeilExp(number, 0)
      decreases number - n2
    {
      n2 := n2 * 2;
      k := k + 1;
    }
    if CeilExp(number, 0) < 30 {
      Pow2Monotone(CeilExp(number, 0), 30);
    }
  }

  /** The 32-bit wrap-around of Java `int` arithmetic. */
  function Wrap32(n: int): int
  {
    (n + 0x8000_0000) % 0x1_0000_0000 - 0x8000_0000
  }

  /** The value of `n_2` after `k` doublings in 32-bit arithmetic. */
  function WrappedDoubling(k: nat): int
  {
    if k == 0 then 1 else Wrap32(2 * WrappedDoubling(k - 1))
  }

  lemma {:induction false} Wrap32Values(n: int)
    ensures -0x8000_0000 <= n < 0x8000_0000 ==> Wrap32(n) == n
    ensures Wrap32(0x8000_0000) == -0x8000_0000
    ensures Wrap32(-0x1_0000_0000) == 0
  {
  }

  lemma {:induction false} WrappedDoublingValues(k: nat)
    ensures k <= 30 ==> WrappedDoubling(k) == Pow2(k)
    ensures k == 31 ==> WrappedDoubling(k) == -0x8000_0000
    ensures k >= 32 ==> WrappedDoubling(k) == 0
  {
    if k > 0 {
      WrappedDoublingValues(k - 1);
      Pow2Thirty();
      if k <= 30 {
        if k < 30 {
          Pow2Monotone(k, 30);
        }
        Wrap32Values(Pow2(k));
      } else if k == 31 {
        Wrap32Values(2 * Pow2(30));
      } else {
        Wrap32Values(2 * WrappedDoubling(k - 1));
      }
    }
  }

  /** For `number > 2^30` the doubling never reaches `number`: `n_2` runs
      through the powers of two up to 2^30, wraps to -2^31 and then stays 0,
      so `toPowerOfTwo` does not terminate. */
  lemma {:induction false} DoublingOverflows(number: int, k: nat)
    requires number > INT_TWO_POW_30
    ensures WrappedDoubling(k) < number
  {
    WrappedDoublingValues(k);
    Pow2Thirty();
    if k < 30 {
      Pow2Monotone(k, 30);
    }
  }

  // ---------------------------------------------------------------------------
  // Texture size

  /** The maximum texture size: the "textureSize" preference when it is a
      number, else `GlobalConstants.DEFAULT_MAX_TEXTURE_SIZE`. */
  function MaxTextureSize(pref: string, defaultMax: int): int
  {
    if pref == "" then defaultMax
    else
      match ParseInt(JStr(pref))
      case Some(v) => v
      case None => defaultMax
  }

  /** A preference holding a number selects that number; an empty or
      non-numeric one falls back to the default. */
  lemma {:induction false} MaxTextureSizeChoice(pref: string, defaultMax: int)
    ensures ParseInt(JStr(pref)).Some? ==> MaxTextureSize(pref, defaultMax) == ParseInt(JStr(pref)).value
    ensures ParseInt(JStr(pref)).None? ==> MaxTextureSize(pref, defaultMax) == defaultMax
    ensures forall n :: IsInt32(n) ==> MaxTextureSize(IntToString(n), defaultMax) == n
  {
    forall n | IsInt32(n)
      ensures MaxTextureSize(IntToString(n), defaultMax) == n
    {
      ParseIntOfIntToString(n);
    }
  }

  /** The texture size of `convertCubicPano`: the power of two at or above
      the optimal face size, limited by the maximum texture size. */
  method TextureSize(pref: string, defaultMax: int, optimalTextureSize: int) returns (textureSize: int)
    requires optimalTextureSize <= INT_TWO_POW_30
    ensures textureSize == Min(Pow2(CeilExp(optimalTextureSize, 0)), MaxTextureSize(pref, defaultMax))
    ensures textureSize <= MaxTextureSize(pref, defaultMax)
  {
    var maxTextureSize := defaultMax;
    if pref != "" {
      var parsed := ParseInt(JStr(pref));
      if parsed.Some? {
        maxTextureSize := parsed.value;
      } else {
        maxTextureSize := defaultMax;
      }
    }
    textureSize := ToPowerOfTwo(optimalTextureSize);
    textureSize := if textureSize <= maxTextureSize then textureSize else maxTextureSize;
  }

  // ---------------------------------------------------------------------------
  // The download

  const BUFFER_SIZE: int := 5000

  function Flatten(chunks: seq<seq<JByte>>): seq<JByte>
  {
    if chunks == [] then [] else Flatten(chunks[..|chunks| - 1]) + chunks[|chunks| - 1]
  }

  /** The byte count after each chunk. */
  function RunningTotals(chunks: seq<seq<JByte>>): (totals: seq<int>)
    ensures |totals| == |chunks|
  {
    if chunks == [] then [] else RunningTotals(chunks[..|chunks| - 1]) + [|Flatten(chunks)|]
  }

  /** The published progress rises strictly, by each chunk's size, and ends
      at the number of bytes downloaded. */
  lemma {:induction false} RunningTotalsRise(chunks: seq<seq<JByte>>)
    requires forall k :: 0 <= k < |chunks| ==> |chunks[k]| > 0
    ensures var t := RunningTotals(chunks);
      && (forall j, k :: 0 <= j < k < |t| ==> t[j] < t[k])
      && (forall k :: 0 <= k < |t| ==> 0 < t[k] <= |Flatten(chunks)|)
      && (|t| > 0 ==> t[|t| - 1] == |Flatten(chunks)|)
  {
    if chunks != [] {
      var front := chunks[..|chunks| - 1];
      RunningTotalsRise(front);
      assert forall k :: 0 <= k < |front| ==> front[k] == chunks[k];
    }
  }

  /** The loop of `BitmapDownloadTask.doInBackground`.  `chunks` are the
      chunks successive `read(buffer)` calls return before end of stream;
      `isCancelled()` turns true at the test numbered `cancelAt`.  Every
      chunk goes into the pipe; `pipe` is what was written to it. */
  method DownloadLoop(chunks: seq<seq<JByte>>, cancelAt: nat, contentLength: int)
    returns (pipe: seq<JByte>, currentLength: int, progress: seq<int>)
    requires forall k :: 0 <= k < |chunks| ==> 0 < |chunks[k]| <= BUFFER_SIZE
    ensures var n := Min(cancelAt, |chunks|);
      && pipe == Flatten(chunks[..n])
      && currentLength == |pipe|
      && progress == (if contentLength > 0 then RunningTotals(chunks[..n]) else [])
  {
    pipe := [];
    currentLength := 0;
    progress := [];
    var i := 0;
    while i < cancelAt && i < |chunks|
      invariant 0 <= i <= |chunks| && i <= cancelAt
      invariant pipe == Flatten(chunks[..i]) && currentLength == |pipe|
      invariant progress == (if contentLength > 0 then RunningTotals(chunks[..i]) else [])
    {
      var buffer := chunks[i];
      assert chunks[..i + 1][..i] == chunks[..i];
      pipe := pipe + buffer;
      currentLength := currentLength + |buffer|;
      if contentLength > 0 {
        progress := progress + [currentLength];
      }
      i := i + 1;
    }
  }

  // ---------------------------------------------------------------------------
  // The decoded image

  datatype DecodeOutcome = LoadFailed | InvalidPano | Accepted(pano: Bitmap)

  /** `onPostExecute`: a missing image is a load failure, one that is not
      twice as wide as high an invalid panorama. */
  function CheckDecoded(result: Option<Bitmap>): (r: DecodeOutcome)
    ensures r.Accepted? <==> result.Some? && result.value.width == 2 * result.value.height
    ensures r.Accepted? ==> r.pano == result.value
    ensures r == LoadFailed <==> result.None?
  {
    if result.None? then LoadFailed
    else if result.value.width != 2 * result.value.height then InvalidPano
    else Accepted(result.value)
  }

  /** The viewer's test of a decoded image is the native converter's test of
      the panorama's shape: a bitmap the viewer accepts passes it, and one it
      rejects as invalid is one the converter refuses as not 2:1; with a
      square face and both bitmaps RGBA_8888 and locked, an accepted
      panorama converts. */
  lemma {:induction false} CheckDecodedMatchesConverter(bitmap: Bitmap, stride: int, face: CubicNative.BitmapInfo, panoLocks: bool, faceLocks: bool)
    ensures var info := CubicNative.BitmapInfo(bitmap.width, bitmap.height, stride, face.format);
      && (CheckDecoded(Some(bitmap)) == InvalidPano <==> CubicNative.Validate(Some(info), Some(face), panoLocks, faceLocks) == CubicNative.PanoNotTwoToOne)
      && ((CheckDecoded(Some(bitmap)).Accepted? && face.width == face.height && face.format == CubicNative.RGBA_8888 && panoLocks && faceLocks)
          ==> CubicNative.Validate(Some(info), Some(face), panoLocks, faceLocks) == CubicNative.Converted)
  {
    var info := CubicNative.BitmapInfo(bitmap.width, bitmap.height, stride, face.format);
    CubicNative.ValidateConverts(Some(info), Some(face), panoLocks, faceLocks);
  }

  // ---------------------------------------------------------------------------
  // The conversion

  /** The order in which the conversion task computes the faces. */
  const CONVERSION_ORDER: seq<Face> := [Front, Back, Top, Bottom, Right, Left]

  /** Face `k` was converted: it came before the cancellation and the
      converter returned a bitmap for it. */
  predicate Ready(sides: seq<Option<Bitmap>>, cancelAt: nat, k: int)
  {
    0 <= k < |sides| && k < cancelAt && sides[k].Some?
  }

  /** How many faces are computed before the task stops: it stops at the
      first cancelled test or the first face the native code fails on. */
  function FacesDone(sides: seq<Option<Bitmap>>, cancelAt: nat, i: nat): (n: nat)
    requires i <= |sides|
    ensures i <= n <= |sides|
    ensures forall k :: i <= k < n ==> Ready(sides, cancelAt, k)
    ensures n < |sides| ==> !Ready(sides, cancelAt, n)
    decreases |sides| - i
  {
    if i == |sides| || !Ready(sides, cancelAt, i) then i
    else FacesDone(sides, cancelAt, i + 1)
  }

  /** `PanoConversionTask.doInBackground`.  `sides[k]` is what the native
      converter returns for the face `CONVERSION_ORDER[k]`, a square of the
      texture size or null.  Progress k is published after the k-th face; the
      cube is built, from the faces by their names, only when all six are
      done. */
  method ConvertFaces(sides: seq<Option<Bitmap>>, cancelAt: nat, textureSize: int)
    returns (progress: seq<int>, cube: Option<CubicPano>)
    requires |sides| == 6
    requires forall k :: 0 <= k < 6 && sides[k].Some? ==> sides[k].value.width == sides[k].value.height == textureSize
    ensures var n := FacesDone(sides, cancelAt, 0);
      && progress == seq(n, k => k + 1)
      && (cube.Some? <==> n == 6)
    ensures cube.Some? ==>
      && Valid(cube.value)
      && forall k :: 0 <= k < 6 ==> sides[k].Some? && GetFace(cube.value, CONVERSION_ORDER[k]) == sides[k].value
  {
    progress := [];
    var faces: seq<Bitmap> := [];
    var i := 0;
    while i < 6
      invariant 0 <= i <= FacesDone(sides, cancelAt, 0)
      invariant FacesDone(sides, cancelAt, i) == FacesDone(sides, cancelAt, 0)
      invariant |faces| == i && forall k :: 0 <= k < i ==> sides[k] == Some(faces[k])
      invariant progress == seq(i, k => k + 1)
    {
      if i >= cancelAt {
        cube := None;
        return;
      }
      var bmp := sides[i];
      if bmp.None? {
        cube := None;
        return;
      }
      faces := faces + [bmp.value];
      progress := progress + [i + 1];
      i := i + 1;
    }
    cube := NewCubicPano(Some(faces[0]), Some(faces[1]), Some(faces[2]), Some(faces[3]), Some(faces[5]), Some(faces[4]));
    NewCubicPanoFaces(Some(faces[0]), Some(faces[1]), Some(faces[2]), Some(faces[3]), Some(faces[5]), Some(faces[4]));
  }

  // ---------------------------------------------------------------------------
  // Restoring a saved cube

  /** The saved faces that are present, in the order front, back, top,
      bottom, left, right. */
  function Present(saved: seq<Option<Bitmap>>): seq<Bitmap>
  {
    if saved == [] then []
    else (if saved[0].Some? then [saved[0].value] else []) + Present(saved[1..])
  }

  /** `onCreate` with saved state: when any of the six faces is missing,
      every present face is recycled and the panorama is downloaded again;
      otherwise the cube is rebuilt from the six. */
  method RestoreFaces(saved: seq<Option<Bitmap>>) returns (recycled: seq<Bitmap>, download: bool, cube: Option<CubicPano>)
    requires |saved| == 6
    ensures download <==> exists k :: 0 <= k < 6 && saved[k].None?
    ensures download ==> recycled == Present(saved) && cube == None
    ensures !download ==> recycled == [] && cube == NewCubicPano(saved[0], saved[1], saved[2], saved[3], saved[4], saved[5])
  {
    recycled := [];
    cube := None;
    download := false;
    if saved[0].None? || saved[1].None? || saved[2].None? || saved[3].None? || saved[4].None? || saved[5].None? {
      var i := 0;
      while i < 6
        invariant 0 <= i <= 6
        invariant recycled + Present(saved[i..]) == Present(saved)
      {
        assert saved[i..][1..] == saved[i + 1..];
        if saved[i].Some? {
          recycled := recycled + [saved[i].value];
        }
        i := i + 1;
      }
      assert Present(saved[6..]) == [];
      download := true;
    } else {
      cube := NewCubicPano(saved[0], saved[1], saved[2], saved[3], saved[4], saved[5]);
    }
  }
}
