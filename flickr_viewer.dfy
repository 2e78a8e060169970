/** `FlickrPanoViewerActivity.java`: the attribution text shown for a Flickr
    panorama, the address it is downloaded from, and the address of its
    photo page. */
module FlickrViewer {
  import opened Common
  import opened FlickrImage
  import opened FlickrUrls
  import PanoList

  const FLICKR_PHOTOS: string := "http://www.flickr.com/photos/"

  /** `showFlickrPhotoPage`: the owner's photo page of the image. */
  function PhotoPageUrl(info: ImageInfo): string
  {
    FLICKR_PHOTOS + Show(info.ownerNsid) + "/" + Show(info.id) + "/"
  }

  /** The page address names the owner and then the photo, each between
      slashes, so both can be read back from it. */
  lemma {:induction false} PhotoPageParts(info: ImageInfo)
    requires '/' !in Show(info.ownerNsid) && '/' !in Show(info.id)
    ensures var url := PhotoPageUrl(info);
      && url[..|FLICKR_PHOTOS|] == FLICKR_PHOTOS
      && Split(url[|FLICKR_PHOTOS|..], '/') == [Show(info.ownerNsid), Show(info.id), ""]
  {
    var parts := [Show(info.ownerNsid), Show(info.id), ""];
    var url := PhotoPageUrl(info);
    assert parts[1..][1..] == [""];
    assert Join(parts[1..], '/') == Show(info.id) + "/";
    assert Join(parts, '/') == Show(info.ownerNsid) + "/" + Show(info.id) + "/";
    assert url == FLICKR_PHOTOS + Join(parts, '/');
    assert url[|FLICKR_PHOTOS|..] == Join(parts, '/');
    SplitJoin(parts, '/');
  }

  /** A null text shown as the empty text. */
  function OrEmpty(s: JString): string
  {
    if s.JNull? then "" else s.s
  }

  /** The author credited: the owner's real name when there is a non-empty
      one, else the user name; null counts as empty. */
  function Author(info: ImageInfo): (author: string)
    ensures OrEmpty(info.ownerRealName) != "" ==> author == info.ownerRealName.s
    ensures OrEmpty(info.ownerRealName) == "" ==> author == OrEmpty(info.ownerUserName)
  {
    var realname := OrEmpty(info.ownerRealName);
    var nickname := OrEmpty(info.ownerUserName);
    if |realname| > 0 then realname else nickname
  }

  /** The author credited is one of the owner's names, the user name only
      when the real name is empty, and is empty only when both are. */
  lemma {:induction false} AuthorIsAName(info: ImageInfo)
    ensures Author(info) == OrEmpty(info.ownerRealName) || Author(info) == OrEmpty(info.ownerUserName)
    ensures Author(info) == "" <==> OrEmpty(info.ownerRealName) == "" && OrEmpty(info.ownerUserName) == ""
    ensures OrEmpty(info.ownerRealName) != "" ==> Author(info) != OrEmpty(info.ownerUserName) || OrEmpty(info.ownerRealName) == OrEmpty(info.ownerUserName)
  {
  }

  /** `getImageAttribution`; `byStr` is the localised word "by". */
  function Attribution(info: ImageInfo, byStr: string): string
  {
    var title := OrEmpty(info.title);
    var url := FLICKR_PHOTOS + Show(info.ownerNsid) + "/";
    title + "\n" + byStr + "\n" + Author(info) + "\n" + url
  }

  /** The attribution has four lines: the title (empty when null), "by",
      the author, and the owner's photo stream. */
  lemma {:induction false} AttributionLines(info: ImageInfo, byStr: string)
    requires Free([OrEmpty(info.title), byStr, Author(info), Show(info.ownerNsid)], '\n')
    ensures Split(Attribution(info, byStr), '\n') ==
      [OrEmpty(info.title), byStr, Author(info), FLICKR_PHOTOS + Show(info.ownerNsid) + "/"]
  {
    var url := FLICKR_PHOTOS + Show(info.ownerNsid) + "/";
    var lines := [OrEmpty(info.title), byStr, Author(info), url];
    var given := [OrEmpty(info.title), byStr, Author(info), Show(info.ownerNsid)];
    assert '\n' !in given[3];
    assert '\n' !in FLICKR_PHOTOS;
    assert '\n' !in url;
    assert forall k :: 0 <= k < 3 ==> lines[k] == given[k];
    assert Free(lines, '\n');
    assert lines[1..][1..][1..] == [url];
    assert Join(lines[1..][1..], '\n') == Author(info) + "\n" + url;
    assert Join(lines[1..], '\n') == byStr + "\n" + Author(info) + "\n" + url;
    assert Attribution(info, byStr) == Join(lines, '\n');
    SplitJoin(lines, '\n');
  }

  /** `setupImageInfo`: the original image when its address is known, else
      the image whose longest side is 1024 pixels. */
  function PanoUri(info: ImageInfo): string
  {
    match OriginalUrl(info)
    case Some(url) => url
    case None => SizedUrl(info, Longest1024)
  }

  /** For an image that passed the result filter the original is downloaded
      exactly when it is usable (complete, a JPEG, not too wide); otherwise
      the 1024-pixel image is. */
  lemma {:induction false} ListedPanoUri(infos: seq<ImageInfo>, includeLowRes: bool, maxWidth: int, k: int)
    requires 0 <= k < |PanoList.Filter(infos, includeLowRes, maxWidth)|
    ensures var info := PanoList.Filter(infos, includeLowRes, maxWidth)[k];
      && (PanoList.OriginalUsable(info, maxWidth) ==>
            PanoUri(info) == UrlBase(info.(secret := info.originalSecret)) + "_o." + info.originalFormat.s)
      && (!PanoList.OriginalUsable(info, maxWidth) ==> PanoUri(info) == SizedUrl(info, Longest1024))
  {
    PanoList.FilterSurvivors(infos, includeLowRes, maxWidth);
  }
}
