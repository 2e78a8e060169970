/** The request URLs of the three Flickr requestors
    (`flickrapi/FlickrPhotoRequestor.java`, `FlickrPhotoInfoRequestor.java`,
    `FlickrPhotoSizeRequestor.java`).

    Each `buildRequestURL` grows a string with `+=`, one `key=value&` piece at
    a time.  The model keeps that shape in its methods and specifies each URL
    by the list of parameters it carries, so that the properties of a URL are
    properties of a list: which keys appear, in which order, with which
    values, and that splitting the query text at `&` and `=` gives the list
    back. */
module FlickrUrls {
  import opened Common

  const FLICKR_URL: string := "http://api.flickr.com/services/rest"
  /** `FlickrConstants.API_KEY_PANODROID`, left empty in the repository. */
  const API_KEY_PANODROID: string := ""
  /** The extra fields of each photo in a search result. */
  const EXTRAS: string := "owner_name,url_o,url_l,url_t," + "original_format,o_dims"

  datatype SortCriteria = Interestingness | Date

  /** The decimal text the geo parameters carry: `Double.toString` of the
      latitude and longitude in degrees and `Float.toString` of the radius in
      kilometres.  The formatting of floating-point numbers is not modelled. */
  datatype GeoText = GeoText(lat: string, lon: string, radiusKm: string)

  /** `FlickrPhotoQuery`.  `tags` is null or a list; `center` is null or the
      map point's coordinates as text; `radius` is in metres. */
  datatype PhotoQuery = PhotoQuery(
    tags: Option<seq<string>>,
    center: Option<GeoText>,
    radius: real,
    sortCriteria: SortCriteria,
    pageNo: int,
    resultsPerPage: int)

  /** The names of the request parameters. */
  datatype Key =
    | Method | ApiKey | Tags | TagMode | Lat | Lon | Radius | RadiusUnits | Accuracy
    | ContentType | PerPage | Page | Sort | Extras | MinUploadDate | PhotoId

  function KeyText(k: Key): string
  {
    match k
    case Method => "method"
    case ApiKey => "api_key"
    case Tags => "tags"
    case TagMode => "tag_mode"
    case Lat => "lat"
    case Lon => "lon"
    case Radius => "radius"
    case RadiusUnits => "radius_units"
    case Accuracy => "accuracy"
    case ContentType => "content_type"
    case PerPage => "per_page"
    case Page => "page"
    case Sort => "sort"
    case Extras => "extras"
    case MinUploadDate => "min_upload_date"
    case PhotoId => "photo_id"
  }

  /** Parameter names are lower-case words joined by underscores, so they
      hold neither `&` nor `=`. */
  lemma {:induction false} KeyTextPlain(k: Key)
    ensures '&' !in KeyText(k) && '=' !in KeyText(k)
  {
  }

  /** No two parameters share a name. */
  lemma {:induction false} KeyTextDistinct(k: Key, k': Key)
    ensures KeyText(k) == KeyText(k') ==> k == k'
  {
  }

  /** A request parameter; `name` is the text of `key`. */
  datatype Param = Param(key: Key, name: string, value: string)

  /** Every parameter carries the text of its key. */
  predicate Named(ps: seq<Param>)
  {
    forall k :: 0 <= k < |ps| ==> ps[k].name == KeyText(ps[k].key)
  }

  // ---------------------------------------------------------------------------
  // Joining and splitting at a separator.

  /** The elements of `xs` with `sep` between neighbours and none at the end. */
  function Join(xs: seq<string>, sep: char): string
  {
    if |xs| == 0 then ""
    else if |xs| == 1 then xs[0]
    else xs[0] + [sep] + Join(xs[1..], sep)
  }

  /** The position of the first `c` in `s`. */
  function Find(s: string, c: char): (i: nat)
    requires c in s
    ensures i < |s| && s[i] == c && c !in s[..i]
  {
    if s[0] == c then 0 else 1 + Find(s[1..], c)
  }

  lemma {:induction false} FindFirst(s: string, c: char, i: nat)
    requires i < |s| && s[i] == c && c !in s[..i]
    ensures Find(s, c) == i
    decreases i
  {
    if i > 0 {
      assert s[0] in s[..i];
      assert s[1..][..i - 1] == s[..i][1..];
      FindFirst(s[1..], c, i - 1);
    }
  }

  /** The pieces of `s` between occurrences of `sep`, empty pieces included. */
  function Split(s: string, sep: char): (r: seq<string>)
    ensures |r| > 0
    decreases |s|
  {
    if sep !in s then [s]
    else
      var i := Find(s, sep);
      [s[..i]] + Split(s[i + 1..], sep)
  }

  predicate Free(xs: seq<string>, c: char)
  {
    forall k :: 0 <= k < |xs| ==> c !in xs[k]
  }

  lemma {:induction false} JoinSnoc(xs: seq<string>, x: string, sep: char)
    requires |xs| > 0
    ensures Join(xs + [x], sep) == Join(xs, sep) + [sep] + x
    decreases |xs|
  {
    if |xs| > 1 {
      JoinSnoc(xs[1..], x, sep);
      assert (xs + [x])[1..] == xs[1..] + [x];
    }
  }

  /** Splitting a join gives the list back when no element holds the separator. */
  lemma {:induction false} SplitJoin(xs: seq<string>, sep: char)
    requires |xs| > 0 && Free(xs, sep)
    ensures Split(Join(xs, sep), sep) == xs
    decreases |xs|
  {
    if |xs| > 1 {
      var s, a, rest := Join(xs, sep), xs[0], Join(xs[1..], sep);
      SplitJoin(xs[1..], sep);
      assert s == a + [sep] + rest;
      assert s[|a|] == sep && s[..|a|] == a && sep !in a;
      FindFirst(s, sep, |a|);
      assert s[|a| + 1..] == rest;
      assert Split(s, sep) == [a] + Split(rest, sep);
      assert xs == [a] + xs[1..];
    } else {
      assert Join(xs, sep) == xs[0] && sep !in xs[0];
    }
  }

  // ---------------------------------------------------------------------------
  // URLs as parameter lists.

  function Field(p: Param): string
  {
    p.name + "=" + p.value
  }

  function Fields(ps: seq<Param>): (r: seq<string>)
    ensures |r| == |ps|
    ensures forall k :: 0 <= k < |ps| ==> r[k] == Field(ps[k])
  {
    if ps == [] then [] else [Field(ps[0])] + Fields(ps[1..])
  }

  /** `FLICKR_URL + "/?"` followed by the parameters as `key=value` joined by `&`. */
  function Render(ps: seq<Param>): string
  {
    FLICKR_URL + "/?" + Join(Fields(ps), '&')
  }

  /** One piece of the query text cut at its first `=` into a name and a
      value; a piece without `=` is all name. */
  function Cut(f: string): (string, string)
  {
    if '=' in f then (f[..Find(f, '=')], f[Find(f, '=') + 1..]) else (f, "")
  }

  function Cuts(pieces: seq<string>): (r: seq<(string, string)>)
    ensures |r| == |pieces|
    ensures forall k :: 0 <= k < |pieces| ==> r[k] == Cut(pieces[k])
  {
    if pieces == [] then [] else [Cut(pieces[0])] + Cuts(pieces[1..])
  }

  /** The query text read back: pieces at `&`, each cut at its first `=`. */
  function ParseQuery(query: string): seq<(string, string)>
  {
    Cuts(Split(query, '&'))
  }

  /** The parameters as (name, value) text pairs. */
  function Texts(ps: seq<Param>): (r: seq<(string, string)>)
    ensures |r| == |ps|
    ensures forall k :: 0 <= k < |ps| ==> r[k] == (ps[k].name, ps[k].value)
  {
    if ps == [] then [] else [(ps[0].name, ps[0].value)] + Texts(ps[1..])
  }

  /** No value holds `&`. */
  predicate Plain(ps: seq<Param>)
  {
    forall k :: 0 <= k < |ps| ==> '&' !in ps[k].value
  }

  /** A parameter list can be read back when no name holds `&` or `=` and
      no value holds `&`. */
  predicate Readable(ps: seq<Param>)
  {
    forall k :: 0 <= k < |ps| ==> '&' !in ps[k].name && '=' !in ps[k].name && '&' !in ps[k].value
  }

  lemma {:induction false} NamedReadable(ps: seq<Param>)
    requires Named(ps) && Plain(ps)
    ensures Readable(ps)
  {
    forall k | 0 <= k < |ps|
      ensures '&' !in ps[k].name && '=' !in ps[k].name
    {
      KeyTextPlain(ps[k].key);
    }
  }

  lemma {:induction false} FieldParse(p: Param)
    requires '=' !in p.name
    ensures Cut(Field(p)) == (p.name, p.value)
  {
    var f := Field(p);
    assert f[|p.name|] == '=' && f[..|p.name|] == p.name;
  }

  /** The query text of a URL, after `FLICKR_URL + "/?"`. */
  function Query(ps: seq<Param>): (r: string)
    ensures Render(ps) == FLICKR_URL + "/?" + r
  {
    Join(Fields(ps), '&')
  }

  lemma {:induction false} FieldsFree(ps: seq<Param>)
    requires Readable(ps)
    ensures Free(Fields(ps), '&')
  {
    var fs := Fields(ps);
    forall k | 0 <= k < |fs|
      ensures '&' !in fs[k]
    {
      assert fs[k] == ps[k].name + "=" + ps[k].value;
    }
  }

  /** Reading the query text of a rendered URL gives its parameters back. */
  lemma {:induction false} RenderParse(ps: seq<Param>)
    requires |ps| > 0 && Readable(ps)
    ensures ParseQuery(Query(ps)) == Texts(ps)
  {
    var fs := Fields(ps);
    FieldsFree(ps);
    SplitJoin(fs, '&');
    var r := ParseQuery(Join(fs, '&'));
    assert |r| == |ps|;
    forall k | 0 <= k < |ps|
      ensures r[k] == Texts(ps)[k]
    {
      FieldParse(ps[k]);
    }
  }

  /** The pieces `key=value&` of each parameter, one after the other: the
      text `buildRequestURL` has after appending the parameters `ps`. */
  function Terminated(ps: seq<Param>): string
  {
    if ps == [] then "" else Terminated(ps[..|ps| - 1]) + Field(ps[|ps| - 1]) + "&"
  }

  /** Appending `key=value&` to the text of the parameters `done`. */
  lemma {:induction false} Emit(url: string, base: string, done: seq<Param>, key: Key, name: string, value: string)
    requires url == base + Terminated(done)
    ensures url + name + "=" + value + "&" == base + Terminated(done + [Param(key, name, value)])
  {
    assert (done + [Param(key, name, value)])[..|done|] == done;
  }

  lemma {:induction false} TerminatedAppend(a: seq<Param>, b: seq<Param>)
    ensures Terminated(a + b) == Terminated(a) + Terminated(b)
    decreases |b|
  {
    if b == [] {
      assert a + b == a;
    } else {
      var init, x := b[..|b| - 1], b[|b| - 1];
      var ab := a + b;
      TerminatedAppend(a, init);
      assert ab[..|ab| - 1] == a + init && ab[|ab| - 1] == x;
      assert Terminated(ab) == Terminated(a + init) + Field(x) + "&";
      assert Terminated(b) == Terminated(init) + Field(x) + "&";
    }
  }

  /** The text of one group of parameters appended after the text of `done`. */
  lemma {:induction false} EmitGroup(url: string, done: seq<Param>, start: string, group: seq<Param>)
    requires start == FLICKR_URL + "/?" + Terminated(done)
    requires url == start + Terminated(group)
    ensures url == FLICKR_URL + "/?" + Terminated(done + group)
  {
    TerminatedAppend(done, group);
  }

  /** Appending the last parameter, with no `&` after it, completes the URL. */
  lemma {:induction false} Finish(url: string, done: seq<Param>, key: Key, name: string, value: string)
    requires url == FLICKR_URL + "/?" + Terminated(done)
    ensures url + name + "=" + value == Render(done + [Param(key, name, value)])
  {
    TerminatedRender(done, Param(key, name, value));
  }

  lemma {:induction false} TerminatedJoin(ps: seq<Param>, last: Param)
    ensures Terminated(ps) + Field(last) == Join(Fields(ps + [last]), '&')
    decreases |ps|
  {
    assert Fields(ps + [last]) == Fields(ps) + [Field(last)];
    if ps != [] {
      var init := ps[..|ps| - 1];
      TerminatedJoin(init, ps[|ps| - 1]);
      assert init + [ps[|ps| - 1]] == ps;
      JoinSnoc(Fields(ps), Field(last), '&');
    }
  }

  /** The finished URL: the parameters before `last`, each followed by `&`,
      then `last`. */
  lemma {:induction false} TerminatedRender(ps: seq<Param>, last: Param)
    ensures FLICKR_URL + "/?" + Terminated(ps) + Field(last) == Render(ps + [last])
  {
    TerminatedJoin(ps, last);
  }

  // ---------------------------------------------------------------------------
  // flickr.photos.search

  function TagParams(tags: Option<seq<string>>): seq<Param>
  {
    if tags.Some? && |tags.value| > 0 then [Param(Tags, "tags", Join(tags.value, ',')), Param(TagMode, "tag_mode", "all")] else []
  }

  function GeoParams(q: PhotoQuery): seq<Param>
  {
    if q.center.Some? && q.radius > 0.0 then
      var g := q.center.value;
      [Param(Lat, "lat", g.lat), Param(Lon, "lon", g.lon), Param(Radius, "radius", g.radiusKm), Param(RadiusUnits, "radius_units", "km"), Param(Accuracy, "accuracy", "1")]
    else []
  }

  function SortValue(c: SortCriteria): string
  {
    match c
    case Interestingness => "interestingness-desc"
    case Date => "date-posted-desc"
  }

  function SearchHead(): seq<Param>
  {
    [Param(Method, "method", "flickr.photos.search"), Param(ApiKey, "api_key", API_KEY_PANODROID)]
  }

  /** The content type, the page size, and the page number when it is positive. */
  function CountParams(q: PhotoQuery): seq<Param>
  {
    [Param(ContentType, "content_type", "1"), Param(PerPage, "per_page", IntToString(q.resultsPerPage))]
    + (if q.pageNo > 0 then [Param(Page, "page", IntToString(q.pageNo))] else [])
  }

  function SortParams(q: PhotoQuery): seq<Param>
  {
    [Param(Sort, "sort", SortValue(q.sortCriteria)), Param(Extras, "extras", EXTRAS)]
  }

  /** The fixed upload date Flickr needs as a search criterion besides a location. */
  const LAST_PARAM := Param(MinUploadDate, "min_upload_date", "1990-01-01")

  /** The parameters of a photo search, in the order the request carries them. */
  function SearchParams(q: PhotoQuery): seq<Param>
  {
    SearchHead() + TagParams(q.tags) + GeoParams(q) + CountParams(q) + SortParams(q) + [LAST_PARAM]
  }

  function Keys(ps: seq<Param>): (r: seq<Key>)
    ensures |r| == |ps|
  {
    if ps == [] then [] else [ps[0].key] + Keys(ps[1..])
  }

  /** The value of the first parameter named `key`. */
  function Lookup(ps: seq<Param>, key: Key): Option<string>
  {
    if ps == [] then None
    else if ps[0].key == key then Some(ps[0].value)
    else Lookup(ps[1..], key)
  }

  lemma {:induction false} LookupAppend(a: seq<Param>, b: seq<Param>, key: Key)
    ensures Lookup(a + b, key) == if key in Keys(a) then Lookup(a, key) else Lookup(b, key)
  {
    if a != [] {
      LookupAppend(a[1..], b, key);
      assert (a + b)[1..] == a[1..] + b;
      assert Keys(a) == [a[0].key] + Keys(a[1..]);
    } else {
      assert a + b == b;
    }
  }

  lemma {:induction false} KeysAppend(a: seq<Param>, b: seq<Param>)
    ensures Keys(a + b) == Keys(a) + Keys(b)
  {
    KeysIndex(a + b);
    KeysIndex(a);
    KeysIndex(b);
    assert forall k :: 0 <= k < |a| + |b| ==> Keys(a + b)[k] == (Keys(a) + Keys(b))[k];
  }

  /** A key absent from the second list is looked up in the first. */
  lemma {:induction false} LookupBefore(a: seq<Param>, b: seq<Param>, key: Key)
    requires key !in Keys(b)
    ensures Lookup(a + b, key) == Lookup(a, key)
  {
    LookupAppend(a, b, key);
    LookupAbsent(b, key);
    if key !in Keys(a) {
      LookupAbsent(a, key);
    }
  }

  lemma {:induction false} LookupAbsent(ps: seq<Param>, key: Key)
    requires key !in Keys(ps)
    ensures Lookup(ps, key) == None
  {
    if ps != [] {
      LookupAbsent(ps[1..], key);
    }
  }

  /** A lookup in six consecutive groups of parameters tries each group in turn. */
  lemma {:induction false} LookupGroups(h: seq<Param>, t: seq<Param>, g: seq<Param>, c: seq<Param>, s: seq<Param>, last: Param, key: Key)
    ensures Lookup(h + t + g + c + s + [last], key) ==
      if key in Keys(h) then Lookup(h, key)
      else if key in Keys(t) then Lookup(t, key)
      else if key in Keys(g) then Lookup(g, key)
      else if key in Keys(c) then Lookup(c, key)
      else if key in Keys(s) then Lookup(s, key)
      else if key == last.key then Some(last.value)
      else None
  {
    KeysAppend(h, t);
    KeysAppend(h + t, g);
    KeysAppend(h + t + g, c);
    KeysAppend(h + t + g + c, s);
    LookupAppend(h + t + g + c + s, [last], key);
    LookupAppend(h + t + g + c, s, key);
    LookupAppend(h + t + g, c, key);
    LookupAppend(h + t, g, key);
    LookupAppend(h, t, key);
    assert [last][1..] == [];
  }

  lemma {:induction false} KeysGroups(h: seq<Param>, t: seq<Param>, g: seq<Param>, c: seq<Param>, s: seq<Param>, last: Param)
    ensures Keys(h + t + g + c + s + [last]) == Keys(h) + Keys(t) + Keys(g) + Keys(c) + Keys(s) + [last.key]
  {
    KeysAppend(h, t);
    KeysAppend(h + t, g);
    KeysAppend(h + t + g, c);
    KeysAppend(h + t + g + c, s);
    KeysAppend(h + t + g + c + s, [last]);
  }

  lemma {:induction false} GroupEnds(h: seq<Param>, t: seq<Param>, g: seq<Param>, c: seq<Param>, s: seq<Param>, last: Param)
    ensures var ps := h + t + g + c + s + [last];
      ps[..|h|] == h && (t != [] ==> ps[|h|] == t[0]) && ps[|ps| - 1] == last
  {
    var ps := h + t + g + c + s + [last];
    assert ps == h + (t + g + c + s + [last]);
  }

  lemma {:induction false} HeadKeys()
    ensures Keys(SearchHead()) == [Method, ApiKey]
  {
  }

  lemma {:induction false} TagKeys(tags: Option<seq<string>>)
    ensures var hasTags := tags.Some? && |tags.value| > 0;
      && Keys(TagParams(tags)) == (if hasTags then [Tags, TagMode] else [])
      && (hasTags ==> Lookup(TagParams(tags), Tags) == Some(Join(tags.value, ',')))
      && (hasTags ==> Lookup(TagParams(tags), TagMode) == Some("all"))
  {
  }

  lemma {:induction false} KeysIndex(ps: seq<Param>)
    ensures forall k :: 0 <= k < |ps| ==> Keys(ps)[k] == ps[k].key
  {
    if ps != [] {
      KeysIndex(ps[1..]);
    }
  }

  lemma {:induction false} GeoKeys(q: PhotoQuery)
    ensures Keys(GeoParams(q)) == if q.center.Some? && q.radius > 0.0 then [Lat, Lon, Radius, RadiusUnits, Accuracy] else []
  {
    KeysIndex(GeoParams(q));
  }

  lemma {:induction false} CountKeys(q: PhotoQuery)
    ensures Keys(CountParams(q)) == [ContentType, PerPage] + (if q.pageNo > 0 then [Page] else [])
    ensures Lookup(CountParams(q), PerPage) == Some(IntToString(q.resultsPerPage))
    ensures q.pageNo > 0 ==> Lookup(CountParams(q), Page) == Some(IntToString(q.pageNo))
  {
    var c := CountParams(q);
    KeysIndex(c);
    if q.pageNo > 0 {
      assert c[1..][1..] == [Param(Page, "page", IntToString(q.pageNo))];
      assert Lookup(c[1..], Page) == Lookup(c[1..][1..], Page);
    }
  }

  lemma {:induction false} SortKeys(q: PhotoQuery)
    ensures Keys(SortParams(q)) == [Sort, Extras]
    ensures Lookup(SortParams(q), Sort) == Some(SortValue(q.sortCriteria))
  {
  }

  /** The keys of the six groups of a search: fixed head, optional tags,
      optional geo, counts with an optional page, sort and extras, upload date. */
  predicate Shaped(h: seq<Param>, t: seq<Param>, g: seq<Param>, c: seq<Param>, s: seq<Param>, last: Param)
  {
    && Keys(h) == [Method, ApiKey]
    && (Keys(t) == [] || Keys(t) == [Tags, TagMode])
    && (Keys(g) == [] || Keys(g) == [Lat, Lon, Radius, RadiusUnits, Accuracy])
    && (Keys(c) == [ContentType, PerPage] || Keys(c) == [ContentType, PerPage, Page])
    && Keys(s) == [Sort, Extras] && last.key == MinUploadDate
  }

  lemma {:induction false} SearchShaped(q: PhotoQuery)
    ensures Shaped(SearchHead(), TagParams(q.tags), GeoParams(q), CountParams(q), SortParams(q), LAST_PARAM)
  {
    HeadKeys();
    TagKeys(q.tags);
    GeoKeys(q);
    CountKeys(q);
    SortKeys(q);
    assert [ContentType, PerPage] + [Page] == [ContentType, PerPage, Page];
    assert [ContentType, PerPage] + [] == [ContentType, PerPage];
  }

  /** The tag keys are looked up in the second group. */
  lemma {:induction false} TagLookup(h: seq<Param>, t: seq<Param>, g: seq<Param>, c: seq<Param>, s: seq<Param>, last: Param, key: Key)
    requires Shaped(h, t, g, c, s, last) && (key == Tags || key == TagMode)
    ensures Lookup(h + t + g + c + s + [last], key) == Lookup(t, key)
  {
    LookupGroups(h, t, g, c, s, last, key);
    if key !in Keys(t) {
      LookupAbsent(t, key);
    }
  }

  /** The count keys are looked up in the fourth group. */
  lemma {:induction false} CountLookup(h: seq<Param>, t: seq<Param>, g: seq<Param>, c: seq<Param>, s: seq<Param>, last: Param, key: Key)
    requires Shaped(h, t, g, c, s, last) && (key == PerPage || key == Page)
    ensures Lookup(h + t + g + c + s + [last], key) == Lookup(c, key)
    ensures key in Keys(h + t + g + c + s + [last]) <==> key in Keys(c)
  {
    LookupGroups(h, t, g, c, s, last, key);
    KeysGroups(h, t, g, c, s, last);
    if key !in Keys(c) {
      LookupAbsent(c, key);
    }
  }

  /** The sort key is looked up in the fifth group. */
  lemma {:induction false} SortLookup(h: seq<Param>, t: seq<Param>, g: seq<Param>, c: seq<Param>, s: seq<Param>, last: Param)
    requires Shaped(h, t, g, c, s, last)
    ensures Lookup(h + t + g + c + s + [last], Sort) == Lookup(s, Sort)
  {
    LookupGroups(h, t, g, c, s, last, Sort);
  }

  /** The latitude is a key of the search exactly when the geo group is there. */
  lemma {:induction false} GeoPresent(h: seq<Param>, t: seq<Param>, g: seq<Param>, c: seq<Param>, s: seq<Param>, last: Param)
    requires Shaped(h, t, g, c, s, last)
    ensures Lat in Keys(h + t + g + c + s + [last]) <==> Keys(g) != []
  {
    KeysGroups(h, t, g, c, s, last);
  }

  /** The search starts with the method and the API key, ends with the fixed
      upload date, and always carries the page size. */
  lemma {:induction false} SearchParamsFrame(q: PhotoQuery)
    ensures var ps := SearchParams(q);
      && ps[..2] == SearchHead()
      && ps[|ps| - 1] == LAST_PARAM
      && Lookup(ps, PerPage) == Some(IntToString(q.resultsPerPage))
  {
    var h, t, g, c, srt := SearchHead(), TagParams(q.tags), GeoParams(q), CountParams(q), SortParams(q);
    SearchShaped(q);
    CountLookup(h, t, g, c, srt, LAST_PARAM, PerPage);
    CountKeys(q);
    GroupEnds(h, t, g, c, srt, LAST_PARAM);
  }

  /** The search always carries the sort order of the query. */
  lemma {:induction false} SearchParamsSort(q: PhotoQuery)
    ensures Lookup(SearchParams(q), Sort) == Some(SortValue(q.sortCriteria))
  {
    SearchShaped(q);
    SortLookup(SearchHead(), TagParams(q.tags), GeoParams(q), CountParams(q), SortParams(q), LAST_PARAM);
    SortKeys(q);
  }

  /** Tags appear, joined by commas, exactly when the query has a non-empty
      tag list; they come right after the method and the API key. */
  lemma {:induction false} SearchParamsTags(q: PhotoQuery)
    ensures var ps := SearchParams(q); var hasTags := q.tags.Some? && |q.tags.value| > 0;
      && Lookup(ps, Tags) == (if hasTags then Some(Join(q.tags.value, ',')) else None)
      && (hasTags ==> ps[2] == Param(Tags, "tags", Join(q.tags.value, ',')))
  {
    var h, t, g, c, srt := SearchHead(), TagParams(q.tags), GeoParams(q), CountParams(q), SortParams(q);
    SearchShaped(q);
    TagLookup(h, t, g, c, srt, LAST_PARAM, Tags);
    TagKeys(q.tags);
    if t == [] {
      LookupAbsent(t, Tags);
    }
    GroupEnds(h, t, g, c, srt, LAST_PARAM);
  }

  /** `tag_mode=all` appears exactly when tags do. */
  lemma {:induction false} SearchParamsTagMode(q: PhotoQuery)
    ensures Lookup(SearchParams(q), TagMode) == if q.tags.Some? && |q.tags.value| > 0 then Some("all") else None
  {
    var t := TagParams(q.tags);
    SearchShaped(q);
    TagLookup(SearchHead(), t, GeoParams(q), CountParams(q), SortParams(q), LAST_PARAM, TagMode);
    TagKeys(q.tags);
    if t == [] {
      LookupAbsent(t, TagMode);
    }
  }

  /** The geo parameters appear exactly when there is a centre and a
      positive radius. */
  lemma {:induction false} SearchParamsGeo(q: PhotoQuery)
    ensures Lat in Keys(SearchParams(q)) <==> q.center.Some? && q.radius > 0.0
  {
    SearchShaped(q);
    GeoPresent(SearchHead(), TagParams(q.tags), GeoParams(q), CountParams(q), SortParams(q), LAST_PARAM);
    GeoKeys(q);
  }

  /** A page number appears exactly when it is positive. */
  lemma {:induction false} SearchParamsPage(q: PhotoQuery)
    ensures var ps := SearchParams(q);
      && (Page in Keys(ps) <==> q.pageNo > 0)
      && Lookup(ps, Page) == (if q.pageNo > 0 then Some(IntToString(q.pageNo)) else None)
  {
    var c := CountParams(q);
    SearchShaped(q);
    CountLookup(SearchHead(), TagParams(q.tags), GeoParams(q), c, SortParams(q), LAST_PARAM, Page);
    CountKeys(q);
    if q.pageNo <= 0 {
      assert Keys(c) == [ContentType, PerPage];
      LookupAbsent(c, Page);
    }
  }

  /** The comma-separated tag text the request carries: each tag, then a
      comma whenever another tag follows. */
  method JoinTags(tags: seq<string>) returns (tagStr: string)
    ensures tagStr == Join(tags, ',')
  {
    tagStr := "";
    var i := 0;
    while i < |tags|
      invariant 0 <= i <= |tags|
      invariant tagStr == if i == 0 then "" else Join(tags[..i], ',') + (if i < |tags| then "," else "")
    {
      var tag := tags[i];
      if i > 0 {
        JoinSnoc(tags[..i], tag, ',');
        assert tags[..i + 1] == tags[..i] + [tag];
      } else {
        assert tags[..1] == [tag];
      }
      tagStr := tagStr + tag;
      i := i + 1;
      if i < |tags| {
        tagStr := tagStr + ",";
      }
    }
    assert tags[..i] == tags;
  }

  /** `FlickrPhotoRequestor.buildRequestURL`. */
  method BuildSearchUrl(q: PhotoQuery) returns (url: string)
    ensures url == Render(SearchParams(q))
  {
    url := FLICKR_URL + "/?";
    ghost var base := url;
    url := url + "method" + "=" + "flickr.photos.search" + "&";
    url := url + "api_key" + "=" + API_KEY_PANODROID + "&";
    ghost var done := SearchHead();
    assert url == base + Terminated(done) by {
      HeadText(base);
    }

    ghost var start := url;
    url := AppendTagParams(url, q.tags);
    assert url == base + Terminated(done + TagParams(q.tags)) by {
      EmitGroup(url, done, start, TagParams(q.tags));
    }
    done := done + TagParams(q.tags);

    start := url;
    url := AppendGeoParams(url, q);
    assert url == base + Terminated(done + GeoParams(q)) by {
      EmitGroup(url, done, start, GeoParams(q));
    }
    done := done + GeoParams(q);

    start := url;
    url := AppendCountParams(url, q);
    assert url == base + Terminated(done + CountParams(q)) by {
      EmitGroup(url, done, start, CountParams(q));
    }
    done := done + CountParams(q);

    start := url;
    url := AppendSortParams(url, q);
    assert url == base + Terminated(done + SortParams(q)) by {
      EmitGroup(url, done, start, SortParams(q));
    }
    done := done + SortParams(q);

    Finish(url, done, MinUploadDate, "min_upload_date", "1990-01-01");
    url := url + "min_upload_date" + "=" + "1990-01-01";
  }

  /** The method and the API key, each followed by `&`. */
  lemma {:induction false} HeadText(base: string)
    ensures base + "method" + "=" + "flickr.photos.search" + "&" + "api_key" + "=" + API_KEY_PANODROID + "&"
         == base + Terminated(SearchHead())
  {
    var m := Param(Method, "method", "flickr.photos.search");
    var a := Param(ApiKey, "api_key", API_KEY_PANODROID);
    var u1 := base + "method" + "=" + "flickr.photos.search" + "&";
    assert u1 == base + Terminated([m]) by {
      assert base == base + Terminated([]);
      Emit(base, base, [], Method, "method", "flickr.photos.search");
      assert [] + [m] == [m];
    }
    Emit(u1, base, [m], ApiKey, "api_key", API_KEY_PANODROID);
    assert [m] + [a] == SearchHead();
  }

  /** The tags, joined by commas, and `tag_mode=all`, when there are tags. */
  method AppendTagParams(url0: string, tags: Option<seq<string>>) returns (url: string)
    ensures url == url0 + Terminated(TagParams(tags))
  {
    url := url0;
    assert url == url0 + Terminated([]);
    if tags.Some? && |tags.value| > 0 {
      var tagStr := JoinTags(tags.value);
      Emit(url, url0, [], Tags, "tags", tagStr);
      url := url + "tags" + "=" + tagStr + "&";
      assert [] + [Param(Tags, "tags", tagStr)] == [Param(Tags, "tags", tagStr)];
      Emit(url, url0, [Param(Tags, "tags", tagStr)], TagMode, "tag_mode", "all");
      url := url + "tag_mode" + "=" + "all" + "&";
      assert [Param(Tags, "tags", tagStr)] + [Param(TagMode, "tag_mode", "all")] == TagParams(tags);
    }
  }

  /** The centre, the radius in kilometres and the accepted accuracy, when
      there is a centre and a positive radius. */
  method AppendGeoParams(url0: string, q: PhotoQuery) returns (url: string)
    ensures url == url0 + Terminated(GeoParams(q))
  {
    url := url0;
    ghost var group: seq<Param> := [];
    assert url == url0 + Terminated(group);
    if q.center.Some? && q.radius > 0.0 {
      var g := q.center.value;
      Emit(url, url0, group, Lat, "lat", g.lat);
      url := url + "lat" + "=" + g.lat + "&";
      group := group + [Param(Lat, "lat", g.lat)];
      Emit(url, url0, group, Lon, "lon", g.lon);
      url := url + "lon" + "=" + g.lon + "&";
      group := group + [Param(Lon, "lon", g.lon)];
      Emit(url, url0, group, Radius, "radius", g.radiusKm);
      url := url + "radius" + "=" + g.radiusKm + "&";
      group := group + [Param(Radius, "radius", g.radiusKm)];
      Emit(url, url0, group, RadiusUnits, "radius_units", "km");
      url := url + "radius_units" + "=" + "km" + "&";
      group := group + [Param(RadiusUnits, "radius_units", "km")];
      Emit(url, url0, group, Accuracy, "accuracy", "1");
      url := url + "accuracy" + "=" + "1" + "&";
      group := group + [Param(Accuracy, "accuracy", "1")];
    }
    assert group == GeoParams(q);
  }

  /** Photos only, the page size, and the page number when it is positive. */
  method AppendCountParams(url0: string, q: PhotoQuery) returns (url: string)
    ensures url == url0 + Terminated(CountParams(q))
  {
    url := url0;
    ghost var group: seq<Param> := [];
    assert url == url0 + Terminated(group);
    Emit(url, url0, group, ContentType, "content_type", "1");
    url := url + "content_type" + "=" + "1" + "&";
    group := group + [Param(ContentType, "content_type", "1")];
    Emit(url, url0, group, PerPage, "per_page", IntToString(q.resultsPerPage));
    url := url + "per_page" + "=" + IntToString(q.resultsPerPage) + "&";
    group := group + [Param(PerPage, "per_page", IntToString(q.resultsPerPage))];
    if q.pageNo > 0 {
      Emit(url, url0, group, Page, "page", IntToString(q.pageNo));
      url := url + "page" + "=" + IntToString(q.pageNo) + "&";
      group := group + [Param(Page, "page", IntToString(q.pageNo))];
    }
    assert group == CountParams(q);
  }

  /** The sort order and the extra fields each photo should carry. */
  method AppendSortParams(url0: string, q: PhotoQuery) returns (url: string)
    ensures url == url0 + Terminated(SortParams(q))
  {
    url := url0;
    assert url == url0 + Terminated([]);
    match q.sortCriteria {
      case Interestingness =>
        Emit(url, url0, [], Sort, "sort", "interestingness-desc");
        url := url + "sort" + "=" + "interestingness-desc" + "&";
      case Date =>
        Emit(url, url0, [], Sort, "sort", "date-posted-desc");
        url := url + "sort" + "=" + "date-posted-desc" + "&";
    }
    var sort := Param(Sort, "sort", SortValue(q.sortCriteria));
    assert [] + [sort] == [sort];
    Emit(url, url0, [sort], Extras, "extras", EXTRAS);
    url := url + "extras" + "=" + EXTRAS + "&";
    assert [sort] + [Param(Extras, "extras", EXTRAS)] == SortParams(q);
  }

  // ---------------------------------------------------------------------------
  // flickr.photos.getInfo and flickr.photos.getSizes

  /** The parameters of a request about one photo: `photoid` is the query's
      `photoid` field as Java's `+` writes it. */
  function PhotoParams(apiMethod: string, photoid: JString): seq<Param>
  {
    [Param(Method, "method", apiMethod), Param(ApiKey, "api_key", API_KEY_PANODROID), Param(PhotoId, "photo_id", Show(photoid))]
  }

  /** `FlickrPhotoInfoRequestor.buildRequestURL`. */
  method BuildInfoUrl(photoid: JString) returns (url: string)
    ensures url == Render(PhotoParams("flickr.photos.getInfo", photoid))
  {
    url := FLICKR_URL + "/?";
    PhotoUrl("flickr.photos.getInfo", photoid, url);
    url := url + "method" + "=" + "flickr.photos.getInfo" + "&";
    url := url + "api_key" + "=" + API_KEY_PANODROID + "&";
    url := url + "photo_id" + "=" + Show(photoid);
  }

  /** `FlickrPhotoSizeRequestor.buildRequestURL`. */
  method BuildSizeUrl(photoid: JString) returns (url: string)
    ensures url == Render(PhotoParams("flickr.photos.getSizes", photoid))
  {
    url := FLICKR_URL + "/?";
    PhotoUrl("flickr.photos.getSizes", photoid, url);
    url := url + "method" + "=" + "flickr.photos.getSizes" + "&";
    url := url + "api_key" + "=" + API_KEY_PANODROID + "&";
    url := url + "photo_id" + "=" + Show(photoid);
  }

  lemma {:induction false} PhotoUrl(apiMethod: string, photoid: JString, url: string)
    requires url == FLICKR_URL + "/?"
    ensures url + "method" + "=" + apiMethod + "&" + "api_key" + "=" + API_KEY_PANODROID + "&" + "photo_id" + "=" + Show(photoid)
      == Render(PhotoParams(apiMethod, photoid))
  {
    var m := Param(Method, "method", apiMethod);
    var a := Param(ApiKey, "api_key", API_KEY_PANODROID);
    var base := FLICKR_URL + "/?";
    var u1 := url + "method" + "=" + apiMethod + "&";
    var u2 := u1 + "api_key" + "=" + API_KEY_PANODROID + "&";
    assert u1 == base + Terminated([m]) by {
      assert url == base + Terminated([]);
      Emit(url, base, [], Method, "method", apiMethod);
      assert [] + [m] == [m];
    }
    assert u2 == base + Terminated([m, a]) by {
      Emit(u1, base, [m], ApiKey, "api_key", API_KEY_PANODROID);
      assert [m] + [a] == [m, a];
    }
    assert [m, a] + [Param(PhotoId, "photo_id", Show(photoid))] == PhotoParams(apiMethod, photoid);
    Finish(u2, [m, a], PhotoId, "photo_id", Show(photoid));
  }

  /** Reading back a search URL whose tags hold no comma and no `&`: its third
      parameter is `tags`, whose value splits at the commas into exactly the
      query's tags. */
  lemma {:induction false} SearchUrlRecoversTags(q: PhotoQuery)
    requires q.tags.Some? && |q.tags.value| > 0
    requires Free(q.tags.value, ',') && Free(q.tags.value, '&')
    requires Plain(GeoParams(q))
    ensures var parsed := ParseQuery(Query(SearchParams(q)));
      && |parsed| > 2 && parsed[2].0 == "tags"
      && Split(parsed[2].1, ',') == q.tags.value
  {
    var ps := SearchParams(q);
    var tags := q.tags.value;
    JoinFree(tags, ',', '&');
    PlainSearch(q);
    NamedSearch(q);
    NamedReadable(ps);
    RenderParse(ps);
    SearchParamsTags(q);
    SplitJoin(tags, ',');
  }

  lemma {:induction false} JoinFree(xs: seq<string>, sep: char, c: char)
    requires Free(xs, c) && sep != c
    ensures c !in Join(xs, sep)
    decreases |xs|
  {
    if |xs| > 1 {
      JoinFree(xs[1..], sep, c);
    }
  }

  lemma {:induction false} NamedAppend(a: seq<Param>, b: seq<Param>)
    requires Named(a) && Named(b)
    ensures Named(a + b)
  {
    forall k | 0 <= k < |a + b|
      ensures (a + b)[k].name == KeyText((a + b)[k].key)
    {
      if k >= |a| {
        assert (a + b)[k] == b[k - |a|];
      }
    }
  }

  lemma {:induction false} NamedGroups(q: PhotoQuery)
    ensures Named(SearchHead()) && Named(TagParams(q.tags)) && Named(GeoParams(q))
    ensures Named(CountParams(q)) && Named(SortParams(q)) && Named([LAST_PARAM])
  {
    NamedGeo(q);
    NamedCounts(q);
  }

  lemma {:induction false} NamedGeo(q: PhotoQuery)
    ensures Named(GeoParams(q))
  {
  }

  lemma {:induction false} NamedCounts(q: PhotoQuery)
    ensures Named(CountParams(q))
  {
  }

  lemma {:induction false} NamedSearch(q: PhotoQuery)
    ensures Named(SearchParams(q))
  {
    var h, t, g, c, srt := SearchHead(), TagParams(q.tags), GeoParams(q), CountParams(q), SortParams(q);
    NamedGroups(q);
    NamedAppend(h, t);
    NamedAppend(h + t, g);
    NamedAppend(h + t + g, c);
    NamedAppend(h + t + g + c, srt);
    NamedAppend(h + t + g + c + srt, [LAST_PARAM]);
  }

  lemma {:induction false} PlainAppend(a: seq<Param>, b: seq<Param>)
    requires Plain(a) && Plain(b)
    ensures Plain(a + b)
  {
    forall k | 0 <= k < |a + b|
      ensures '&' !in (a + b)[k].value
    {
      if k >= |a| {
        assert (a + b)[k] == b[k - |a|];
      }
    }
  }

  /** Decimal numbers and the fixed texts keep a search readable when its tags
      and its geo text are. */
  lemma {:induction false} PlainSearch(q: PhotoQuery)
    requires Plain(GeoParams(q)) && Plain(TagParams(q.tags))
    ensures Plain(SearchParams(q))
  {
    PlainCounts(q);
    PlainFixed(q);
    PlainAppend(SearchHead(), TagParams(q.tags));
    PlainAppend(SearchHead() + TagParams(q.tags), GeoParams(q));
    PlainAppend(SearchHead() + TagParams(q.tags) + GeoParams(q), CountParams(q));
    PlainAppend(SearchHead() + TagParams(q.tags) + GeoParams(q) + CountParams(q), SortParams(q));
    PlainAppend(SearchHead() + TagParams(q.tags) + GeoParams(q) + CountParams(q) + SortParams(q), [LAST_PARAM]);
  }

  lemma {:induction false} PlainCounts(q: PhotoQuery)
    ensures Plain(CountParams(q))
  {
    IntToStringPlain(q.resultsPerPage);
    IntToStringPlain(q.pageNo);
  }

  lemma {:induction false} PlainFixed(q: PhotoQuery)
    ensures Plain(SearchHead()) && Plain(SortParams(q)) && Plain([LAST_PARAM])
  {
    PlainHead();
    PlainSort(q.sortCriteria);
    PlainLast();
  }

  lemma {:induction false} PlainHead()
    ensures Plain(SearchHead())
  {
    assert '&' !in "flickr.photos.search";
  }

  lemma {:induction false} PlainSort(c: SortCriteria)
    ensures Plain([Param(Sort, "sort", SortValue(c)), Param(Extras, "extras", EXTRAS)])
  {
    PlainExtras();
    if c == Interestingness {
      assert '&' !in "interestingness-desc";
    } else {
      assert '&' !in "date-posted-desc";
    }
  }

  lemma {:induction false} PlainLast()
    ensures Plain([LAST_PARAM])
  {
    assert '&' !in "1990-01-01";
  }

  lemma {:induction false} PlainExtras()
    ensures '&' !in EXTRAS
  {
    assert '&' !in "owner_name,url_o,url_l,url_t,";
    assert '&' !in "original_format,o_dims";
  }

  lemma {:induction false} IntToStringPlain(n: int)
    ensures '&' !in IntToString(n)
  {
    var s := NatToString(if n < 0 then -n else n);
    assert AllDigits(s);
    assert '&' !in s by {
      forall k | 0 <= k < |s|
        ensures s[k] != '&'
      {
        assert IsDigit(s[k]);
      }
    }
    if n < 0 {
      assert IntToString(n) == "-" + s;
    }
  }
}
