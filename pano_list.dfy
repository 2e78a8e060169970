/** The search-result list of `FlickrPanoListActivity.java`: which images a
    search result keeps, the paged search that retries until enough images
    are found, and the thumbnail slots filled by bitmap requests.

    The activity's dialogs, adapter and message plumbing are not modelled:
    the photo and bitmap requestors are represented by the queries handed to
    them, in order. */
module PanoList {
  import opened Common
  import opened FlickrImage
  import opened FlickrUrls
  import FlickrSearch

  const TAG_EQUIRECTANGULAR: string := "equirectangular"
  const RESULTS_PER_PAGE: int := 50
  const MAX_TRY_CNT: int := 3
  const REQUIRED_RESULTS_PER_SEARCH: int := 10
  const HIGH_QUALITY_MIN_WIDTH: int := 3000

  // ---------------------------------------------------------------------------
  // The filter

  /** `isOriginalFormatCompatible`: the original format is "jpg" in any letter case. */
  predicate FormatCompatible(info: ImageInfo)
  {
    info.originalFormat.JStr? && EqualsIgnoreCase(info.originalFormat.s, JStr("jpg"))
  }

  /** Forgetting the original image: its secret, format and size together. */
  function ClearOriginal(info: ImageInfo): (r: ImageInfo)
    ensures OriginalUrl(r).None?
  {
    info.(originalSecret := JNull, originalFormat := JNull, originalSize := None)
  }

  /** The three checks that clear the original image, in the order they run:
      incomplete original information, an incompatible format, an original
      wider than `maxWidth` (`GlobalConstants.MAX_PANO_IMAGE_WIDTH`). */
  function CleanOriginal(info: ImageInfo, maxWidth: int): ImageInfo
  {
    var a := if OriginalUrl(info).None? || info.originalSize.None? then ClearOriginal(info) else info;
    var b := if OriginalUrl(a).Some? && !FormatCompatible(a) then ClearOriginal(a) else a;
    if b.originalSize.Some? && b.originalSize.value.width > maxWidth then ClearOriginal(b) else b
  }

  /** An original image the viewer may download: complete, a JPEG, and no
      wider than `maxWidth`. */
  predicate OriginalUsable(info: ImageInfo, maxWidth: int)
  {
    && info.originalSecret.JStr? && info.originalFormat.JStr? && info.originalSize.Some?
    && FormatCompatible(info) && info.originalSize.value.width <= maxWidth
  }

  /** The checks keep the original information exactly when it is usable
      and otherwise clear all of it together. */
  lemma {:induction false} CleanOriginalKeepsUsable(info: ImageInfo, maxWidth: int)
    ensures CleanOriginal(info, maxWidth) == if OriginalUsable(info, maxWidth) then info else ClearOriginal(info)
  {
  }

  /** What `filterImageInfos` does to one info: `None` when it is removed,
      else the info with its original cleaned. */
  function FilterOne(info: ImageInfo, includeLowRes: bool, maxWidth: int): Option<ImageInfo>
  {
    if info.largeSize.None? then None
    else if info.largeSize.value.width != 2 * info.largeSize.value.height then None
    else
      var c := CleanOriginal(info, maxWidth);
      if !includeLowRes && (c.originalSize.None? || c.originalSize.value.width < HIGH_QUALITY_MIN_WIDTH) then None
      else Some(c)
  }

  /** Which infos survive: a large size with a 2:1 aspect ratio and, unless
      low-resolution images are wanted, a usable original at least 3000 pixels
      wide. */
  predicate Accepted(info: ImageInfo, includeLowRes: bool, maxWidth: int)
  {
    && info.largeSize.Some? && info.largeSize.value.width == 2 * info.largeSize.value.height
    && (includeLowRes || (OriginalUsable(info, maxWidth) && info.originalSize.value.width >= HIGH_QUALITY_MIN_WIDTH))
  }

  lemma {:induction false} FilterOneAccepts(info: ImageInfo, includeLowRes: bool, maxWidth: int)
    ensures FilterOne(info, includeLowRes, maxWidth).Some? <==> Accepted(info, includeLowRes, maxWidth)
    ensures FilterOne(info, includeLowRes, maxWidth).Some? ==>
      FilterOne(info, includeLowRes, maxWidth).value == if OriginalUsable(info, maxWidth) then info else ClearOriginal(info)
  {
    CleanOriginalKeepsUsable(info, maxWidth);
  }

  function Filter(infos: seq<ImageInfo>, includeLowRes: bool, maxWidth: int): seq<ImageInfo>
  {
    if infos == [] then []
    else
      var head := FilterOne(infos[0], includeLowRes, maxWidth);
      (if head.Some? then [head.value] else []) + Filter(infos[1..], includeLowRes, maxWidth)
  }

  /** The filter decides about each info on its own and keeps the survivors
      in their order. */
  lemma {:induction false} FilterAppend(a: seq<ImageInfo>, b: seq<ImageInfo>, includeLowRes: bool, maxWidth: int)
    ensures Filter(a + b, includeLowRes, maxWidth) == Filter(a, includeLowRes, maxWidth) + Filter(b, includeLowRes, maxWidth)
    decreases |a|
  {
    if a != [] {
      assert (a + b)[1..] == a[1..] + b;
      FilterAppend(a[1..], b, includeLowRes, maxWidth);
    } else {
      assert a + b == b;
    }
  }

  /** What every survivor satisfies: a 2:1 large size; original information
      either complete, a JPEG and no wider than `maxWidth`, or absent
      altogether; and, unless low-resolution images are wanted, an original
      at least 3000 pixels wide.  There are never more survivors than
      infos. */
  lemma {:induction false} FilterSurvivors(infos: seq<ImageInfo>, includeLowRes: bool, maxWidth: int)
    ensures var r := Filter(infos, includeLowRes, maxWidth);
      && |r| <= |infos|
      && forall k :: 0 <= k < |r| ==>
        && r[k].largeSize.Some? && r[k].largeSize.value.width == 2 * r[k].largeSize.value.height
        && (OriginalUsable(r[k], maxWidth) || (OriginalUrl(r[k]).None? && r[k].originalSize.None?))
        && (!includeLowRes ==> r[k].originalSize.Some? && r[k].originalSize.value.width >= HIGH_QUALITY_MIN_WIDTH)
  {
    if infos != [] {
      FilterSurvivors(infos[1..], includeLowRes, maxWidth);
      FilterOneAccepts(infos[0], includeLowRes, maxWidth);
    }
  }

  /** `filterImageInfos`: walks the result list, removing rejected infos and
      clearing the original information where it cannot be used. */
  method FilterImageInfos(list: seq<ImageInfo>, includeLowRes: bool, maxWidth: int) returns (kept: seq<ImageInfo>)
    ensures kept == Filter(list, includeLowRes, maxWidth)
  {
    kept := [];
    var i := 0;
    while i < |list|
      invariant 0 <= i <= |list|
      invariant kept == Filter(list[..i], includeLowRes, maxWidth)
    {
      var imageInfo := list[i];
      assert list[..i + 1] == list[..i] + [list[i]];
      FilterAppend(list[..i], [list[i]], includeLowRes, maxWidth);
      i := i + 1;
      if imageInfo.largeSize.None? {
        continue;
      }
      if imageInfo.largeSize.value.width != 2 * imageInfo.largeSize.value.height {
        continue;
      }
      if OriginalUrl(imageInfo).None? || imageInfo.originalSize.None? {
        imageInfo := ClearOriginal(imageInfo);
      }
      if OriginalUrl(imageInfo).Some? && !FormatCompatible(imageInfo) {
        imageInfo := ClearOriginal(imageInfo);
      }
      if imageInfo.originalSize.Some? && imageInfo.originalSize.value.width > maxWidth {
        imageInfo := ClearOriginal(imageInfo);
      }
      if !includeLowRes && (imageInfo.originalSize.None? || imageInfo.originalSize.value.width < HIGH_QUALITY_MIN_WIDTH) {
        continue;
      }
      kept := kept + [imageInfo];
    }
    assert list[..i] == list;
  }

  // ---------------------------------------------------------------------------
  // The paged search

  /** What `processNewImages` does once the new images are listed. */
  datatype SearchDecision =
    | Enough        // enough images in this search
    | Retry         // too few, and tries are left: ask for the next page
    | NoImages      // no image in this search and none listed: the activity quits
    | NoMoreImages  // no image in this search: further searches are disabled
    | FewerImages   // some, but fewer than required; searches stay enabled

  function Decide(resultCnt: int, tryCnt: int, listed: int): SearchDecision
  {
    if resultCnt < REQUIRED_RESULTS_PER_SEARCH then
      if tryCnt >= MAX_TRY_CNT then
        if resultCnt == 0 then (if listed == 0 then NoImages else NoMoreImages)
        else FewerImages
      else Retry
    else Enough
  }

  /** A search is retried exactly when it has found fewer than ten images and
      has made fewer than three tries; it stops with `Enough` exactly when
      ten images are found. */
  lemma {:induction false} DecideRetries(resultCnt: int, tryCnt: int, listed: int)
    ensures Decide(resultCnt, tryCnt, listed) == Retry <==> resultCnt < REQUIRED_RESULTS_PER_SEARCH && tryCnt < MAX_TRY_CNT
    ensures Decide(resultCnt, tryCnt, listed) == Enough <==> resultCnt >= REQUIRED_RESULTS_PER_SEARCH
    ensures Decide(resultCnt, tryCnt, listed) in {NoImages, NoMoreImages} ==> resultCnt == 0
  {
  }

  /** `createPhotoQuery` as a value: the user's tags followed by
      "equirectangular", the matching sort order, the current page and fifty
      results per page. */
  function SearchQuery(params: FlickrSearch.SearchParameters, page: int): PhotoQuery
  {
    var sort := if params.sortCriteria == FlickrSearch.Interesting then Interestingness else Date;
    PhotoQuery(Some(params.tags + [TAG_EQUIRECTANGULAR]), None, 0.0, sort, page, RESULTS_PER_PAGE)
  }

  /** Tags from the search form, sent in a search URL, come back from its
      query text as the user's tags followed by "equirectangular". */
  lemma {:induction false} SearchQueryTags(params: FlickrSearch.SearchParameters, page: int)
    requires forall k :: 0 <= k < |params.tags| ==> FlickrSearch.NoDelimiter(params.tags[k]) && '&' !in params.tags[k]
    ensures var parsed := ParseQuery(Query(SearchParams(SearchQuery(params, page))));
      && |parsed| > 2 && parsed[2].0 == "tags"
      && Split(parsed[2].1, ',') == params.tags + [TAG_EQUIRECTANGULAR]
  {
    var q := SearchQuery(params, page);
    var tags := q.tags.value;
    assert Free(tags, ',') && Free(tags, '&') by {
      forall k | 0 <= k < |tags|
        ensures ',' !in tags[k] && '&' !in tags[k]
      {
        assert forall i :: 0 <= i < |tags[k]| ==> tags[k][i] != ',';
      }
    }
    SearchUrlRecoversTags(q);
  }

  /** A request for the thumbnail of one list position; the position is
      the value `queryToPosition` maps the request to. */
  datatype ThumbnailQuery = ThumbnailQuery(url: string, position: int)

  /** The positions a sequence of thumbnail queries was made for. */
  function Positions(queries: seq<ThumbnailQuery>): set<int>
  {
    set k | 0 <= k < |queries| :: queries[k].position
  }

  lemma {:induction false} PositionsSnoc(queries: seq<ThumbnailQuery>, q: ThumbnailQuery)
    ensures Positions(queries + [q]) == Positions(queries) + {q.position}
  {
    var all := queries + [q];
    assert all[|queries|] == q;
    forall p | p in Positions(queries)
      ensures p in Positions(all)
    {
      var k :| 0 <= k < |queries| && queries[k].position == p;
      assert all[k] == queries[k];
    }
  }

  /** The list activity's state; `B` is the type of a thumbnail bitmap. */
  class PanoListActivity<B> {
    const searchParameters: FlickrSearch.SearchParameters
    /** `GlobalConstants.MAX_PANO_IMAGE_WIDTH`. */
    const maxPanoWidth: int

    var imgInfos: seq<ImageInfo>
    /** One slot per listed info; `None` until its thumbnail arrives. */
    var thumbnails: seq<Option<B>>
    var currentPage: int
    var tryCnt: int
    var resultCnt: int
    /** The queries handed to the photo requestor, in order. */
    var photoQueries: seq<PhotoQuery>
    var requestedImages: set<int>
    /** The queries handed to the bitmap requestor, in order; a query's index
        is its identity. */
    var thumbnailQueries: seq<ThumbnailQuery>

    /** Info and thumbnail lists stay parallel; each requested position has
        exactly one thumbnail query, for a listed info; tries stay within
        the maximum. */
    predicate Valid()
      reads this
    {
      && |imgInfos| == |thumbnails|
      && 0 <= tryCnt <= MAX_TRY_CNT
      && (forall k :: 0 <= k < |thumbnailQueries| ==> 0 <= thumbnailQueries[k].position < |imgInfos|)
      && (forall j, k :: 0 <= j < k < |thumbnailQueries| ==> thumbnailQueries[j].position != thumbnailQueries[k].position)
      && requestedImages == Positions(thumbnailQueries)
    }

    /** `onCreate` without saved state, before the first search. */
    constructor (params: FlickrSearch.SearchParameters, maxWidth: int)
      ensures Valid()
      ensures searchParameters == params && maxPanoWidth == maxWidth
      ensures imgInfos == [] && thumbnails == [] && currentPage == 0 && tryCnt == 0 && resultCnt == 0
      ensures photoQueries == [] && requestedImages == {} && thumbnailQueries == []
    {
      searchParameters := params;
      maxPanoWidth := maxWidth;
      imgInfos := [];
      thumbnails := [];
      currentPage := 0;
      tryCnt := 0;
      resultCnt := 0;
      photoQueries := [];
      requestedImages := {};
      thumbnailQueries := [];
    }

    /** `createPhotoQuery`: copies the user's tags and adds "equirectangular". */
    method CreatePhotoQuery() returns (query: PhotoQuery)
      ensures query == SearchQuery(searchParameters, currentPage)
    {
      var searchTags: seq<string> := [];
      var i := 0;
      while i < |searchParameters.tags|
        invariant 0 <= i <= |searchParameters.tags|
        invariant searchTags == searchParameters.tags[..i]
      {
        searchTags := searchTags + [searchParameters.tags[i]];
        i := i + 1;
      }
      assert searchParameters.tags[..i] == searchParameters.tags;
      searchTags := searchTags + [TAG_EQUIRECTANGULAR];
      var sortCriteria := Date;
      match searchParameters.sortCriteria {
        case Date => sortCriteria := Date;
        case Interesting => sortCriteria := Interestingness;
      }
      query := PhotoQuery(Some(searchTags), None, 0.0, sortCriteria, currentPage, RESULTS_PER_PAGE);
    }

    /** `startPhotoSearch`: the next page, the first try, no results yet. */
    method StartPhotoSearch()
      requires Valid()
      modifies this
      ensures Valid()
      ensures currentPage == old(currentPage) + 1 && tryCnt == 1 && resultCnt == 0
      ensures photoQueries == old(photoQueries) + [SearchQuery(searchParameters, currentPage)]
      ensures imgInfos == old(imgInfos) && thumbnails == old(thumbnails)
      ensures requestedImages == old(requestedImages) && thumbnailQueries == old(thumbnailQueries)
    {
      currentPage := currentPage + 1;
      tryCnt := 1;
      resultCnt := 0;
      var query := CreatePhotoQuery();
      photoQueries := photoQueries + [query];
    }

    /** `continuePhotoSearch`: the next page, one more try. */
    method ContinuePhotoSearch()
      requires Valid() && tryCnt < MAX_TRY_CNT
      modifies this
      ensures Valid()
      ensures currentPage == old(currentPage) + 1 && tryCnt == old(tryCnt) + 1 && resultCnt == old(resultCnt)
      ensures photoQueries == old(photoQueries) + [SearchQuery(searchParameters, currentPage)]
      ensures imgInfos == old(imgInfos) && thumbnails == old(thumbnails)
      ensures requestedImages == old(requestedImages) && thumbnailQueries == old(thumbnailQueries)
    {
      currentPage := currentPage + 1;
      tryCnt := tryCnt + 1;
      var query := CreatePhotoQuery();
      photoQueries := photoQueries + [query];
    }

    /** `processNewImages`: lists the survivors of a search result, each with
        an empty thumbnail slot, counts them, and retries with the next page
        while too few were found and tries are left. */
    method ProcessNewImages(images: seq<ImageInfo>) returns (decision: SearchDecision)
      requires Valid()
      modifies this
      ensures Valid()
      ensures var kept := Filter(images, searchParameters.includeLowResImages, maxPanoWidth);
        && imgInfos == old(imgInfos) + kept
        && thumbnails == old(thumbnails) + seq(|kept|, _ => None)
        && resultCnt == old(resultCnt) + |kept|
        && decision == Decide(resultCnt, old(tryCnt), |imgInfos|)
      ensures decision == Retry ==>
        (currentPage == old(currentPage) + 1 && tryCnt == old(tryCnt) + 1
         && photoQueries == old(photoQueries) + [SearchQuery(searchParameters, currentPage)])
      ensures decision != Retry ==> currentPage == old(currentPage) && tryCnt == old(tryCnt) && photoQueries == old(photoQueries)
      ensures requestedImages == old(requestedImages) && thumbnailQueries == old(thumbnailQueries)
    {
      var kept := FilterImageInfos(images, searchParameters.includeLowResImages, maxPanoWidth);
      AddImages(kept);
      resultCnt := resultCnt + |kept|;
      decision := Decide(resultCnt, tryCnt, |imgInfos|);
      if decision == Retry {
        ContinuePhotoSearch();
      }
    }

    /** The loop of `processNewImages`: each image is listed with an empty
        thumbnail slot. */
    method AddImages(images: seq<ImageInfo>)
      requires Valid()
      modifies this`imgInfos, this`thumbnails
      ensures Valid()
      ensures imgInfos == old(imgInfos) + images
      ensures thumbnails == old(thumbnails) + seq(|images|, _ => None)
    {
      var i := 0;
      while i < |images|
        invariant 0 <= i <= |images|
        invariant imgInfos == old(imgInfos) + images[..i]
        invariant thumbnails == old(thumbnails) + seq(i, _ => None)
        invariant Valid()
      {
        assert images[..i + 1] == images[..i] + [images[i]];
        imgInfos := imgInfos + [images[i]];
        thumbnails := thumbnails + [None];
        i := i + 1;
      }
      assert images[..i] == images;
    }

    /** `loadThumbnail`: at most one request per position. */
    method LoadThumbnail(position: int)
      requires Valid() && 0 <= position < |imgInfos|
      modifies this`requestedImages, this`thumbnailQueries
      ensures Valid()
      ensures requestedImages == old(requestedImages) + {position}
      ensures old(position in requestedImages) ==> thumbnailQueries == old(thumbnailQueries)
      ensures old(position !in requestedImages) ==>
        thumbnailQueries == old(thumbnailQueries) + [ThumbnailQuery(SizedUrl(imgInfos[position], Longest240), position)]
    {
      if position in requestedImages {
        return;
      }
      requestedImages := requestedImages + {position};
      var query := ThumbnailQuery(SizedUrl(imgInfos[position], Longest240), position);
      PositionsSnoc(thumbnailQueries, query);
      thumbnailQueries := thumbnailQueries + [query];
    }

    /** `ThumbnailMsgHandler` on a finished query: the bitmap fills the slot
        of the position the query was made for, and no other. */
    method ThumbnailReceived(query: int, bitmap: B)
      requires Valid() && 0 <= query < |thumbnailQueries|
      modifies this`thumbnails
      ensures Valid()
      ensures thumbnails == old(thumbnails)[thumbnailQueries[query].position := Some(bitmap)]
    {
      var position := thumbnailQueries[query].position;
      thumbnails := thumbnails[position := Some(bitmap)];
    }
  }
}
