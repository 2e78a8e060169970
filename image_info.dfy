/** `flickrapi/FlickrImageInfo.java`: what the app knows about one Flickr
    photo, the image URLs derived from it, and its serialisation into an
    Android `Parcel`.

    The Parcel is modelled as a sequence of tokens (a string reference or an
    int) with a read cursor; writes append and reads consume one token. */
module FlickrImage {
  import opened Common

  const IMAGE_HOST: string := "static.flickr.com"

  /** The fields of `FlickrImageInfo`; every string may be `null` and every
      size may be absent. */
  datatype ImageInfo = ImageInfo(
    id: JString,
    secret: JString,
    originalSecret: JString,
    server: JString,
    farm: JString,
    title: JString,
    ownerRealName: JString,
    ownerUserName: JString,
    ownerNsid: JString,
    thumbnailSize: Option<ImageSize>,
    largeSize: Option<ImageSize>,
    originalSize: Option<ImageSize>,
    originalFormat: JString)

  /** `new FlickrImageInfo()`: every field null. */
  const EMPTY_INFO: ImageInfo :=
    ImageInfo(JNull, JNull, JNull, JNull, JNull, JNull, JNull, JNull, JNull, None, None, None, JNull)

  // ---------------------------------------------------------------------------
  // Image URLs.

  /** `http://farm{farm}.static.flickr.com/{server}/{id}_{secret}`; a null
      field is written as `null`, as Java's `+` does. */
  function UrlBase(info: ImageInfo): string
  {
    "http://farm" + Show(info.farm) + "." + IMAGE_HOST + "/" + Show(info.server) + "/" + Show(info.id) + "_" + Show(info.secret)
  }

  /** The six sizes `FlickrImageInfo` has a getter for. */
  datatype SizeClass = Longest100 | Square75 | Longest240 | Longest500 | Longest640 | Longest1024

  /** The suffix Flickr appends to the base for each size. */
  function Suffix(c: SizeClass): string
  {
    match c
    case Longest100 => "_t.jpg"
    case Square75 => "_s.jpg"
    case Longest240 => "_m.jpg"
    case Longest500 => ".jpg"
    case Longest640 => "_z.jpg"
    case Longest1024 => "_b.jpg"
  }

  /** `getImage100URL`, `getImage75x75URL`, `getImage240`, `getImage500URL`,
      `getImage640URL` and `getImage1024URL`. */
  function SizedUrl(info: ImageInfo, c: SizeClass): (url: string)
    ensures |url| == |UrlBase(info)| + |Suffix(c)|
    ensures url[..|UrlBase(info)|] == UrlBase(info) && url[|UrlBase(info)|..] == Suffix(c)
  {
    UrlBase(info) + Suffix(c)
  }

  /** Different sizes of one photo have different URLs. */
  lemma {:induction false} SizedUrlsDistinct(info: ImageInfo, c1: SizeClass, c2: SizeClass)
    ensures SizedUrl(info, c1) == SizedUrl(info, c2) <==> c1 == c2
  {
    if SizedUrl(info, c1) == SizedUrl(info, c2) {
      var b := |UrlBase(info)|;
      assert Suffix(c1) == SizedUrl(info, c1)[b..];
      SuffixInjective(c1, c2);
    }
  }

  lemma {:induction false} SuffixInjective(c1: SizeClass, c2: SizeClass)
    ensures Suffix(c1) == Suffix(c2) ==> c1 == c2
  {
    if Suffix(c1) == Suffix(c2) {
      var s := Suffix(c1);
      if |s| == 4 {
        assert c1 == Longest500 && c2 == Longest500;
      } else {
        assert s[1] == Suffix(c2)[1];
      }
    }
  }

  /** `getOriginalURL`: null when the original secret or the original format
      is unknown, otherwise the base with the original secret and the format. */
  function OriginalUrl(info: ImageInfo): (url: Option<string>)
    ensures url.None? <==> info.originalSecret.JNull? || info.originalFormat.JNull?
    ensures url.Some? ==> url.value == UrlBase(info.(secret := info.originalSecret)) + "_o." + info.originalFormat.s
  {
    if info.originalSecret.JNull? || info.originalFormat.JNull? then None
    else
      Some("http://farm" + Show(info.farm) + "." + IMAGE_HOST + "/" + Show(info.server) + "/" + Show(info.id)
        + "_" + info.originalSecret.s + "_o." + info.originalFormat.s)
  }

  // ---------------------------------------------------------------------------
  // The Parcel.

  datatype Token = TStr(str: JString) | TInt(n: int)

  /** A token read as a string: null unless it is a string. */
  function StrOf(t: Token): JString
  {
    if t.TStr? then t.str else JNull
  }

  /** A token read as an int: 0 unless it is an int. */
  function IntOf(t: Token): int
  {
    if t.TInt? then t.n else 0
  }

  /** The string a read at `pos` returns; null past the end. */
  function StringAt(ts: seq<Token>, pos: nat): JString
  {
    if pos < |ts| then StrOf(ts[pos]) else JNull
  }

  /** The int a read at `pos` returns; 0 past the end. */
  function IntAt(ts: seq<Token>, pos: nat): int
  {
    if pos < |ts| then IntOf(ts[pos]) else 0
  }

  /** A read consumes one token, if there is one left. */
  function Next(ts: seq<Token>, pos: nat): nat
  {
    if pos < |ts| then pos + 1 else pos
  }

  class Parcel {
    var tokens: seq<Token>
    var pos: nat

    constructor ()
      ensures tokens == [] && pos == 0
    {
      tokens := [];
      pos := 0;
    }

    method WriteString(s: JString)
      modifies this`tokens
      ensures tokens == old(tokens) + [TStr(s)]
    {
      tokens := tokens + [TStr(s)];
    }

    method WriteInt(n: int)
      modifies this`tokens
      ensures tokens == old(tokens) + [TInt(n)]
    {
      tokens := tokens + [TInt(n)];
    }

    method ReadString() returns (s: JString)
      modifies this`pos
      ensures s == StringAt(tokens, old(pos)) && pos == Next(tokens, old(pos))
    {
      s := StringAt(tokens, pos);
      pos := Next(tokens, pos);
    }

    method ReadInt() returns (n: int)
      modifies this`pos
      ensures n == IntAt(tokens, old(pos)) && pos == Next(tokens, old(pos))
    {
      n := IntAt(tokens, pos);
      pos := Next(tokens, pos);
    }
  }

  /** A size is written as its width and height, a missing one as (-1, -1). */
  function SizeTokens(size: Option<ImageSize>): seq<Token>
  {
    match size
    case None => [TInt(-1), TInt(-1)]
    case Some(sz) => [TInt(sz.width), TInt(sz.height)]
  }

  /** The tokens `writeToParcel` appends: nine strings, three sizes, the
      original format. */
  function Encode(info: ImageInfo): (ts: seq<Token>)
    ensures |ts| == 16
  {
    StringTokens(info)
    + SizeTokens(info.thumbnailSize) + SizeTokens(info.largeSize) + SizeTokens(info.originalSize)
    + [TStr(info.originalFormat)]
  }

  /** The size the Parcel constructor builds from a width and a height. */
  function SizeOf(width: int, height: int): (size: Option<ImageSize>)
    ensures size.Some? <==> width > 0 && height > 0
    ensures size.Some? ==> size.value == ImageSize(width, height)
  {
    if width > 0 && height > 0 then Some(ImageSize(width, height)) else None
  }

  /** Three (width, height) pairs read from `pos` on, and the cursor after them. */
  function DecodeSizes(ts: seq<Token>, pos: nat): (Option<ImageSize>, Option<ImageSize>, Option<ImageSize>, nat)
  {
    var p1 := Next(ts, pos);
    var p2 := Next(ts, p1);
    var p3 := Next(ts, p2);
    var p4 := Next(ts, p3);
    var p5 := Next(ts, p4);
    (SizeOf(IntAt(ts, pos), IntAt(ts, p1)), SizeOf(IntAt(ts, p2), IntAt(ts, p3)),
     SizeOf(IntAt(ts, p4), IntAt(ts, p5)), Next(ts, p5))
  }

  /** `FlickrImageInfo(Parcel)`: the info read from `pos` on, and the cursor
      after it. */
  function Decode(ts: seq<Token>, pos: nat): (ImageInfo, nat)
  {
    var p1 := Next(ts, pos);
    var p2 := Next(ts, p1);
    var p3 := Next(ts, p2);
    var p4 := Next(ts, p3);
    var p5 := Next(ts, p4);
    var p6 := Next(ts, p5);
    var p7 := Next(ts, p6);
    var p8 := Next(ts, p7);
    var p9 := Next(ts, p8);
    var sizes := DecodeSizes(ts, p9);
    (ImageInfo(StringAt(ts, pos), StringAt(ts, p1), StringAt(ts, p2), StringAt(ts, p3), StringAt(ts, p4),
       StringAt(ts, p5), StringAt(ts, p6), StringAt(ts, p7), StringAt(ts, p8),
       sizes.0, sizes.1, sizes.2, StringAt(ts, sizes.3)),
     Next(ts, sizes.3))
  }

  /** The nine strings, in the order `writeToParcel` writes them. */
  function StringTokens(info: ImageInfo): seq<Token>
  {
    [TStr(info.id), TStr(info.secret), TStr(info.originalSecret), TStr(info.server), TStr(info.farm),
     TStr(info.title), TStr(info.ownerRealName), TStr(info.ownerUserName), TStr(info.ownerNsid)]
  }

  /** `writeToParcel`. */
  method WriteToParcel(info: ImageInfo, out: Parcel)
    modifies out`tokens
    ensures out.tokens == old(out.tokens) + Encode(info)
  {
    WriteStrings(info, out);
    ghost var t0 := out.tokens;
    WriteSize(info.thumbnailSize, out);
    WriteSize(info.largeSize, out);
    WriteSize(info.originalSize, out);
    out.WriteString(info.originalFormat);
    assert out.tokens == t0 + (SizeTokens(info.thumbnailSize) + SizeTokens(info.largeSize) + SizeTokens(info.originalSize) + [TStr(info.originalFormat)]);
  }

  method WriteStrings(info: ImageInfo, out: Parcel)
    modifies out`tokens
    ensures out.tokens == old(out.tokens) + StringTokens(info)
  {
    out.WriteString(info.id);
    out.WriteString(info.secret);
    out.WriteString(info.originalSecret);
    out.WriteString(info.server);
    out.WriteString(info.farm);
    out.WriteString(info.title);
    out.WriteString(info.ownerRealName);
    out.WriteString(info.ownerUserName);
    out.WriteString(info.ownerNsid);
  }

  method WriteSize(size: Option<ImageSize>, out: Parcel)
    modifies out`tokens
    ensures out.tokens == old(out.tokens) + SizeTokens(size)
  {
    if size.None? {
      out.WriteInt(-1);
      out.WriteInt(-1);
    } else {
      out.WriteInt(size.value.width);
      out.WriteInt(size.value.height);
    }
  }

  /** `FlickrImageInfo(Parcel)`. */
  method ReadFromParcel(p: Parcel) returns (info: ImageInfo)
    modifies p`pos
    ensures (info, p.pos) == Decode(p.tokens, old(p.pos))
  {
    var id := p.ReadString();
    var secret := p.ReadString();
    var originalSecret := p.ReadString();
    var server := p.ReadString();
    var farm := p.ReadString();
    var title := p.ReadString();
    var ownerRealName := p.ReadString();
    var ownerUserName := p.ReadString();
    var ownerNsid := p.ReadString();
    var thumbnailSize := ReadSize(p);
    var largeSize := ReadSize(p);
    var originalSize := ReadSize(p);
    var originalFormat := p.ReadString();
    info := ImageInfo(id, secret, originalSecret, server, farm, title, ownerRealName, ownerUserName, ownerNsid,
      thumbnailSize, largeSize, originalSize, originalFormat);
  }

  method ReadSize(p: Parcel) returns (size: Option<ImageSize>)
    modifies p`pos
    ensures var p1 := Next(p.tokens, old(p.pos));
      size == SizeOf(IntAt(p.tokens, old(p.pos)), IntAt(p.tokens, p1)) && p.pos == Next(p.tokens, p1)
  {
    var width := p.ReadInt();
    var height := p.ReadInt();
    if width > 0 && height > 0 {
      size := Some(ImageSize(width, height));
    } else {
      size := None;
    }
  }

  // ---------------------------------------------------------------------------
  // The round trip.

  /** A size survives the Parcel only with positive dimensions. */
  function Positive(size: Option<ImageSize>): (r: Option<ImageSize>)
    ensures r.Some? <==> size.Some? && size.value.width > 0 && size.value.height > 0
    ensures r.Some? ==> r == size
  {
    if size.Some? && size.value.width > 0 && size.value.height > 0 then size else None
  }

  /** The info with every size that has a non-positive dimension dropped. */
  function Normalize(info: ImageInfo): ImageInfo
  {
    info.(thumbnailSize := Positive(info.thumbnailSize), largeSize := Positive(info.largeSize),
          originalSize := Positive(info.originalSize))
  }

  /** An info whose sizes all have positive dimensions is its own normal form. */
  lemma {:induction false} NormalizeFixes(info: ImageInfo)
    ensures Normalize(info) == info <==>
      (info.thumbnailSize.Some? ==> info.thumbnailSize.value.width > 0 && info.thumbnailSize.value.height > 0) &&
      (info.largeSize.Some? ==> info.largeSize.value.width > 0 && info.largeSize.value.height > 0) &&
      (info.originalSize.Some? ==> info.originalSize.value.width > 0 && info.originalSize.value.height > 0)
  {
    if Normalize(info) == info {
      assert Positive(info.thumbnailSize) == info.thumbnailSize;
      assert Positive(info.largeSize) == info.largeSize;
      assert Positive(info.originalSize) == info.originalSize;
    }
  }

  /** The info sixteen tokens stand for. */
  function DecodeTokens(w: seq<Token>): ImageInfo
    requires |w| == 16
  {
    ImageInfo(StrOf(w[0]), StrOf(w[1]), StrOf(w[2]), StrOf(w[3]), StrOf(w[4]),
      StrOf(w[5]), StrOf(w[6]), StrOf(w[7]), StrOf(w[8]),
      SizeOf(IntOf(w[9]), IntOf(w[10])), SizeOf(IntOf(w[11]), IntOf(w[12])), SizeOf(IntOf(w[13]), IntOf(w[14])),
      StrOf(w[15]))
  }

  /** With sixteen tokens left, reading an info reads exactly those. */
  lemma {:induction false} DecodeWindow(ts: seq<Token>, pos: nat)
    requires pos + 16 <= |ts|
    ensures Decode(ts, pos) == (DecodeTokens(ts[pos..pos + 16]), pos + 16)
  {
    var w := ts[pos..pos + 16];
    assert forall k :: 0 <= k < 16 ==> ts[pos + k] == w[k];
  }

  lemma {:induction false} SizeRoundTrip(size: Option<ImageSize>)
    ensures SizeOf(IntOf(SizeTokens(size)[0]), IntOf(SizeTokens(size)[1])) == Positive(size)
  {
  }

  lemma {:induction false} DecodeEncode(info: ImageInfo)
    ensures DecodeTokens(Encode(info)) == Normalize(info)
  {
    var e := Encode(info);
    SizeRoundTrip(info.thumbnailSize);
    SizeRoundTrip(info.largeSize);
    SizeRoundTrip(info.originalSize);
    assert e[9..11] == SizeTokens(info.thumbnailSize);
    assert e[11..13] == SizeTokens(info.largeSize);
    assert e[13..15] == SizeTokens(info.originalSize);
  }

  /** Reading back what `writeToParcel` wrote, wherever it sits in the
      Parcel, gives every string field back and every size with positive
      dimensions; the other sizes come back null.  The cursor ends right
      after the info. */
  lemma {:induction false} ParcelRoundTrip(before: seq<Token>, info: ImageInfo, after: seq<Token>)
    ensures Decode(before + Encode(info) + after, |before|) == (Normalize(info), |before| + 16)
  {
    var ts := before + Encode(info) + after;
    DecodeWindow(ts, |before|);
    assert ts[|before|..|before| + 16] == Encode(info);
    DecodeEncode(info);
  }

  /** Writing into a Parcel and reading from where the write began gives the
      normalised info back. */
  method ParcelTrip(info: ImageInfo) returns (copy: ImageInfo)
    ensures copy == Normalize(info)
  {
    var p := new Parcel();
    WriteToParcel(info, p);
    ParcelRoundTrip([], info, []);
    assert p.tokens == [] + Encode(info) + [];
    copy := ReadFromParcel(p);
  }
}
