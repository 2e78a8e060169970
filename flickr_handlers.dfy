/** The SAX handlers of the three Flickr requestors
    (`flickrapi/FlickrPhotoRequestor.java`, `FlickrPhotoInfoRequestor.java`,
    `FlickrPhotoSizeRequestor.java`).

    The XML parser is outside the model: a response is the sequence of events
    it delivers, element starts with their attributes and character chunks.
    Each handler is a class whose fields are the requestor state it writes
    (`setSuccessState`, `setResult` and the requestor's `result`); each event
    method is specified by a step function on that state.  An exception a
    handler raises is an outcome of the step; the parser stops at the first
    one. */
module FlickrHandlers {
  import opened Common
  import opened FlickrImage

  /** The attributes of an element by name. */
  type Attributes = map<string, string>

  /** `attributes.getValue(name)`: null for an absent attribute. */
  function Attr(attrs: Attributes, name: string): (v: JString)
    ensures v.JStr? <==> name in attrs
  {
    if name in attrs then JStr(attrs[name]) else JNull
  }

  datatype Event = Start(name: string, attrs: Attributes) | Text(chars: string)

  /** The exceptions a handler can raise. */
  datatype Failure = NullDereference | NumberFormat | AssertionFailed

  datatype Outcome = Handled | Thrown(failure: Failure)

  /** The `rsp` gate every handler shares: `stat="ok"` marks success. */
  predicate StatOk(attrs: Attributes)
  {
    Attr(attrs, "stat") == JStr("ok")
  }

  // ---------------------------------------------------------------------------
  // flickr.photos.search

  /** A size from two attributes parsed with `Integer.parseInt`; null when
      either is missing or not a 32-bit decimal number. */
  function SizeAttrs(attrs: Attributes, widthKey: string, heightKey: string): (size: Option<ImageSize>)
    ensures size.Some? <==> ParseInt(Attr(attrs, widthKey)).Some? && ParseInt(Attr(attrs, heightKey)).Some?
  {
    var w := ParseInt(Attr(attrs, widthKey));
    var h := ParseInt(Attr(attrs, heightKey));
    if w.Some? && h.Some? then Some(ImageSize(w.value, h.value)) else None
  }

  /** The info a `photo` element of a search result describes. */
  function PhotoInfo(attrs: Attributes): ImageInfo
  {
    EMPTY_INFO.(
      id := Attr(attrs, "id"),
      ownerUserName := Attr(attrs, "ownername"),
      ownerNsid := Attr(attrs, "owner"),
      farm := Attr(attrs, "farm"),
      server := Attr(attrs, "server"),
      secret := Attr(attrs, "secret"),
      title := Attr(attrs, "title"),
      largeSize := SizeAttrs(attrs, "width_l", "height_l"),
      originalFormat := Attr(attrs, "originalformat"),
      originalSecret := Attr(attrs, "originalsecret"),
      originalSize := SizeAttrs(attrs, "width_o", "height_o"))
  }

  /** Sizes written as decimal attributes are read back exactly; a missing
      attribute gives no size. */
  lemma {:induction false} SizeAttrsRoundTrip(attrs: Attributes, widthKey: string, heightKey: string, w: int, h: int)
    requires IsInt32(w) && IsInt32(h)
    ensures widthKey in attrs && heightKey in attrs && attrs[widthKey] == IntToString(w) && attrs[heightKey] == IntToString(h)
      ==> SizeAttrs(attrs, widthKey, heightKey) == Some(ImageSize(w, h))
    ensures widthKey !in attrs || heightKey !in attrs ==> SizeAttrs(attrs, widthKey, heightKey) == None
  {
    ParseIntOfIntToString(w);
    ParseIntOfIntToString(h);
  }

  /** The requestor state the search handler writes: the success flag and the
      result list (null until an `rsp` element with `stat="ok"`). */
  datatype SearchState = SearchState(success: bool, result: Option<seq<ImageInfo>>)

  function SearchStep(s: SearchState, e: Event): (SearchState, Outcome)
  {
    match e
    case Text(_) => (s, Handled)
    case Start(name, attrs) =>
      if name == "rsp" then
        if StatOk(attrs) then (SearchState(true, Some([])), Handled) else (s.(success := false), Handled)
      else if name == "photo" then
        if s.result.None? then (s, Thrown(NullDereference))
        else (s.(result := Some(s.result.value + [PhotoInfo(attrs)])), Handled)
      else (s, Handled)
  }

  /** The state after a sequence of events, and how the last one ended; the
      parser stops at the first exception. */
  function SearchRun(s: SearchState, events: seq<Event>): (SearchState, Outcome)
    decreases |events|
  {
    if events == [] then (s, Handled)
    else
      var (s1, o) := SearchStep(s, events[0]);
      if o.Thrown? then (s1, o) else SearchRun(s1, events[1..])
  }

  /** The infos of the `photo` elements among `events`, in document order. */
  function PhotosOf(events: seq<Event>): seq<ImageInfo>
  {
    if events == [] then []
    else
      var rest := PhotosOf(events[1..]);
      if events[0].Start? && events[0].name == "photo" then [PhotoInfo(events[0].attrs)] + rest else rest
  }

  predicate NoRsp(events: seq<Event>)
  {
    forall k :: 0 <= k < |events| ==> !(events[k].Start? && events[k].name == "rsp")
  }

  /** After a result list exists, each `photo` element appends one info,
      in document order, and nothing raises. */
  lemma {:induction false} SearchRunAppends(s: SearchState, events: seq<Event>)
    requires s.result.Some? && NoRsp(events)
    ensures SearchRun(s, events) == (s.(result := Some(s.result.value + PhotosOf(events))), Handled)
    decreases |events|
  {
    if events != [] {
      var e := events[0];
      assert !(e.Start? && e.name == "rsp");
      var (s1, o) := SearchStep(s, e);
      assert NoRsp(events[1..]) by {
        forall k | 0 <= k < |events[1..]|
          ensures !(events[1..][k].Start? && events[1..][k].name == "rsp")
        {
          assert events[1..][k] == events[k + 1];
        }
      }
      SearchRunAppends(s1, events[1..]);
      assert o == Handled && SearchRun(s, events) == SearchRun(s1, events[1..]);
      if e.Start? && e.name == "photo" {
        assert s1.result.value + PhotosOf(events[1..]) == s.result.value + PhotosOf(events);
      } else {
        assert s1 == s && PhotosOf(events) == PhotosOf(events[1..]);
      }
    } else {
      assert s.result.value + PhotosOf(events) == s.result.value;
    }
  }

  /** A response opened by `<rsp stat="ok">` succeeds with exactly the infos
      of its `photo` elements; one whose `stat` is missing or not "ok" leaves
      the success flag false. */
  lemma {:induction false} SearchResponse(s: SearchState, rsp: Attributes, events: seq<Event>)
    requires NoRsp(events)
    ensures StatOk(rsp) ==> SearchRun(s, [Start("rsp", rsp)] + events) == (SearchState(true, Some(PhotosOf(events))), Handled)
    ensures !StatOk(rsp) ==> !SearchRun(s, [Start("rsp", rsp)] + events).0.success
  {
    var all := [Start("rsp", rsp)] + events;
    assert all[1..] == events;
    if StatOk(rsp) {
      SearchRunAppends(SearchState(true, Some([])), events);
      assert [] + PhotosOf(events) == PhotosOf(events);
      assert SearchRun(s, all) == SearchRun(SearchState(true, Some([])), events);
    } else {
      SearchRunKeepsFailure(s.(success := false), events);
    }
  }

  /** Without an `rsp` element nothing sets the success flag. */
  lemma {:induction false} SearchRunKeepsFailure(s: SearchState, events: seq<Event>)
    requires !s.success && NoRsp(events)
    ensures !SearchRun(s, events).0.success
    decreases |events|
  {
    if events != [] {
      var (s1, o) := SearchStep(s, events[0]);
      assert NoRsp(events[1..]) by {
        forall k | 0 <= k < |events[1..]|
          ensures !(events[1..][k].Start? && events[1..][k].name == "rsp")
        {
          assert events[1..][k] == events[k + 1];
        }
      }
      SearchRunKeepsFailure(s1, events[1..]);
    }
  }

  /** `FlickrPhotoRequestor.MySAXHandler`. */
  class PhotoSearchHandler {
    var success: bool
    var result: Option<seq<ImageInfo>>

    function State(): SearchState
      reads this
    {
      SearchState(success, result)
    }

    /** The handler of a fresh request: the requestor's success flag starts
        false; its result list is whatever the previous request left. */
    constructor (previous: Option<seq<ImageInfo>>)
      ensures State() == SearchState(false, previous)
    {
      success := false;
      result := previous;
    }

    method StartElement(name: string, attrs: Attributes) returns (outcome: Outcome)
      modifies this
      ensures (State(), outcome) == SearchStep(old(State()), Start(name, attrs))
    {
      outcome := Handled;
      if name == "rsp" {
        var state := Attr(attrs, "stat");
        if state.JNull? || state.s != "ok" {
          success := false;
        } else {
          result := Some([]);
          success := true;
        }
      } else if name == "photo" {
        var info := PhotoInfo(attrs);
        if result.None? {
          outcome := Thrown(NullDereference);
        } else {
          result := Some(result.value + [info]);
        }
      }
    }
  }

  // ---------------------------------------------------------------------------
  // flickr.photos.getInfo

  /** The requestor state the info handler writes, and the handler's
      `insideTitle` flag. */
  datatype InfoState = InfoState(success: bool, result: Option<ImageInfo>, insideTitle: bool)

  function InfoStep(s: InfoState, e: Event): (InfoState, Outcome)
  {
    match e
    case Start(name, attrs) =>
      if name == "rsp" then
        if StatOk(attrs) then (s.(success := true, result := Some(EMPTY_INFO)), Handled)
        else (s.(success := false), Handled)
      else if name == "owner" then
        if s.result.None? then (s, Thrown(NullDereference))
        else
          (s.(result := Some(s.result.value.(
             ownerRealName := Attr(attrs, "realname"),
             ownerUserName := Attr(attrs, "username"),
             ownerNsid := Attr(attrs, "nsid")))), Handled)
      else if name == "photo" then
        if s.result.None? then (s, Thrown(NullDereference))
        else
          (s.(result := Some(s.result.value.(
             id := Attr(attrs, "id"),
             server := Attr(attrs, "server"),
             farm := Attr(attrs, "farm"),
             secret := Attr(attrs, "secret")))), Handled)
      else if name == "title" then (s.(insideTitle := true), Handled)
      else (s, Handled)
    case Text(chars) =>
      if !s.insideTitle then (s, Handled)
      else if s.result.None? then (s.(insideTitle := false), Thrown(NullDereference))
      else (s.(insideTitle := false, result := Some(s.result.value.(title := JStr(chars)))), Handled)
  }

  /** An `owner` element sets the three owner fields and nothing else; a
      `photo` element sets the id, server, farm and secret and nothing else. */
  lemma {:induction false} InfoStepFrames(s: InfoState, attrs: Attributes)
    requires s.result.Some?
    ensures var (t, o) := InfoStep(s, Start("owner", attrs)); var i, j := s.result.value, t.result.value;
      && o == Handled && t.success == s.success && t.insideTitle == s.insideTitle
      && j.ownerRealName == Attr(attrs, "realname") && j.ownerUserName == Attr(attrs, "username") && j.ownerNsid == Attr(attrs, "nsid")
      && j.(ownerRealName := i.ownerRealName, ownerUserName := i.ownerUserName, ownerNsid := i.ownerNsid) == i
    ensures var (t, o) := InfoStep(s, Start("photo", attrs)); var i, j := s.result.value, t.result.value;
      && o == Handled && t.success == s.success && t.insideTitle == s.insideTitle
      && j.id == Attr(attrs, "id") && j.server == Attr(attrs, "server") && j.farm == Attr(attrs, "farm") && j.secret == Attr(attrs, "secret")
      && j.(id := i.id, server := i.server, farm := i.farm, secret := i.secret) == i
  {
  }

  function InfoRun(s: InfoState, events: seq<Event>): (InfoState, Outcome)
    decreases |events|
  {
    if events == [] then (s, Handled)
    else
      var (s1, o) := InfoStep(s, events[0]);
      if o.Thrown? then (s1, o) else InfoRun(s1, events[1..])
  }

  /** After a `title` start only the first character chunk becomes the title:
      later chunks of the same text are dropped. */
  lemma {:induction false} TitleTakesFirstChunk(s: InfoState, attrs: Attributes, first: string, more: seq<string>)
    requires s.result.Some?
    ensures var events := [Start("title", attrs), Text(first)] + seq(|more|, k requires 0 <= k < |more| => Text(more[k]));
      var (t, o) := InfoRun(s, events);
      o == Handled && !t.insideTitle && t.result == Some(s.result.value.(title := JStr(first)))
  {
    var texts := seq(|more|, k requires 0 <= k < |more| => Text(more[k]));
    var events := [Start("title", attrs), Text(first)] + texts;
    var s2 := s.(insideTitle := false, result := Some(s.result.value.(title := JStr(first))));
    assert events[1..][1..] == texts;
    IgnoredChunks(s2, texts);
  }

  lemma {:induction false} IgnoredChunks(s: InfoState, texts: seq<Event>)
    requires !s.insideTitle
    requires forall k :: 0 <= k < |texts| ==> texts[k].Text?
    ensures InfoRun(s, texts) == (s, Handled)
    decreases |texts|
  {
    if texts != [] {
      IgnoredChunks(s, texts[1..]);
    }
  }

  /** `FlickrPhotoInfoRequestor.MySAXHandler`. */
  class PhotoInfoHandler {
    var success: bool
    var result: Option<ImageInfo>
    var insideTitle: bool

    function State(): InfoState
      reads this
    {
      InfoState(success, result, insideTitle)
    }

    constructor (previous: Option<ImageInfo>)
      ensures State() == InfoState(false, previous, false)
    {
      success := false;
      result := previous;
      insideTitle := false;
    }

    method StartElement(name: string, attrs: Attributes) returns (outcome: Outcome)
      modifies this
      ensures (State(), outcome) == InfoStep(old(State()), Start(name, attrs))
    {
      outcome := Handled;
      if name == "rsp" {
        var state := Attr(attrs, "stat");
        if state.JNull? || state.s != "ok" {
          success := false;
        } else {
          result := Some(EMPTY_INFO);
          success := true;
        }
      } else if name == "owner" {
        if result.None? {
          outcome := Thrown(NullDereference);
          return;
        }
        result := Some(result.value.(ownerRealName := Attr(attrs, "realname")));
        result := Some(result.value.(ownerUserName := Attr(attrs, "username")));
        result := Some(result.value.(ownerNsid := Attr(attrs, "nsid")));
      } else if name == "photo" {
        if result.None? {
          outcome := Thrown(NullDereference);
          return;
        }
        result := Some(result.value.(id := Attr(attrs, "id")));
        result := Some(result.value.(server := Attr(attrs, "server")));
        result := Some(result.value.(farm := Attr(attrs, "farm")));
        result := Some(result.value.(secret := Attr(attrs, "secret")));
      } else if name == "title" {
        insideTitle := true;
      }
    }

    method Characters(chars: string) returns (outcome: Outcome)
      modifies this
      ensures (State(), outcome) == InfoStep(old(State()), Text(chars))
    {
      outcome := Handled;
      if insideTitle {
        insideTitle := false;
        if result.None? {
          outcome := Thrown(NullDereference);
        } else {
          result := Some(result.value.(title := JStr(chars)));
        }
      }
    }
  }

  // ---------------------------------------------------------------------------
  // flickr.photos.getSizes

  /** The size labels `FlickrImageSizes` has a field pair for. */
  datatype SizeLabel = Square | Thumbnail | Small | Medium | Large | Original

  function LabelText(l: SizeLabel): (t: string)
    ensures |t| > 0 && forall i :: 0 <= i < |t| ==> 'a' <= t[i] <= 'z'
  {
    match l
    case Square => "square"
    case Thumbnail => "thumbnail"
    case Small => "small"
    case Medium => "medium"
    case Large => "large"
    case Original => "original"
  }

  /** The first label, in the handler's order, whose word `text` spells in
      any letter case. */
  function MatchLabel(text: string): (r: Option<SizeLabel>)
    ensures r.Some? ==> Lower(text) == LabelText(r.value)
    ensures r.None? ==> forall l :: Lower(text) != LabelText(l)
  {
    var t := Lower(text);
    if t == "square" then Some(Square)
    else if t == "thumbnail" then Some(Thumbnail)
    else if t == "small" then Some(Small)
    else if t == "medium" then Some(Medium)
    else if t == "large" then Some(Large)
    else if t == "original" then Some(Original)
    else None
  }

  /** The label test is `equalsIgnoreCase` against each label word: a text
      selects a label exactly when it equals that label's word ignoring case. */
  lemma {:induction false} MatchLabelIgnoresCase(text: string, l: SizeLabel)
    ensures MatchLabel(text) == Some(l) <==> EqualsIgnoreCase(text, JStr(LabelText(l)))
  {
    LowerKeepsLowercase(LabelText(l));
  }

  /** A text holding a `:`, such as an accepted URL, names no label. */
  lemma {:induction false} ColonMatchesNoLabel(text: string)
    requires ':' in text
    ensures MatchLabel(text).None?
  {
    forall l: SizeLabel
      ensures Lower(text) != LabelText(l)
    {
      ColonTextIsNoWord(text, LabelText(l));
      LowerKeepsLowercase(LabelText(l));
    }
  }

  /** A size and the URL of its image, the pair of fields of `FlickrImageSizes`
      one `size` element sets. */
  datatype SizeEntry = SizeEntry(size: ImageSize, url: string)

  /** `FlickrImageSizes`: the field pairs set so far, by label. */
  type ImageSizes = map<SizeLabel, SizeEntry>

  datatype SizesState = SizesState(success: bool, result: Option<ImageSizes>)

  /** A `size` element with its label read from the attribute `labelKey`. */
  function SizeElement(labelKey: string, s: SizesState, attrs: Attributes): (SizesState, Outcome)
  {
    if s.result.None? then (s, Thrown(AssertionFailed))
    else
      var labelText := Attr(attrs, labelKey);
      var source := Attr(attrs, "source");
      if !ValidUrl(source) then (s, Handled)
      else
        var w := ParseInt(Attr(attrs, "width"));
        var h := ParseInt(Attr(attrs, "height"));
        if w.None? || h.None? then (s, Thrown(NumberFormat))
        else if labelText.JNull? then (s, Thrown(NullDereference))
        else
          match MatchLabel(labelText.s)
          case None => (s, Thrown(AssertionFailed))
          case Some(l) => (s.(result := Some(s.result.value[l := SizeEntry(ImageSize(w.value, h.value), source.s)])), Handled)
  }

  /** The `rsp` gate and the `size` element, with the label read from `labelKey`. */
  function SizesStepWith(labelKey: string, s: SizesState, e: Event): (SizesState, Outcome)
  {
    match e
    case Text(_) => (s, Handled)
    case Start(name, attrs) =>
      if name == "rsp" then
        if StatOk(attrs) then (SizesState(true, Some(map[])), Handled) else (s.(success := false), Handled)
      else if name == "size" then SizeElement(labelKey, s, attrs)
      else (s, Handled)
  }

  /** The handler as written: the label is read from the `source` attribute. */
  function SizesStepAsWritten(s: SizesState, e: Event): (SizesState, Outcome)
  {
    SizesStepWith("source", s, e)
  }

  /** The handler as evidently intended: the label is read from `label`. */
  function SizesStep(s: SizesState, e: Event): (SizesState, Outcome)
  {
    SizesStepWith("label", s, e)
  }

  /** As written, no `size` element is ever recorded: one whose source is not
      an accepted URL is skipped, and for any accepted URL the label test
      compares the URL itself with the label words, which never match, so the
      handler raises and the sizes stay as they were. */
  lemma {:induction false} AsWrittenNeverRecords(s: SizesState, attrs: Attributes)
    ensures var (t, o) := SizesStepAsWritten(s, Start("size", attrs));
      t == s && (s.result.Some? && ValidUrl(Attr(attrs, "source")) ==> o.Thrown?)
  {
    var source := Attr(attrs, "source");
    if s.result.Some? && ValidUrl(source) {
      ColonMatchesNoLabel(source.s);
    }
  }

  /** The source URL of the example `size` element below. */
  const EXAMPLE_SOURCE := "http" + [':'] + "//farm1.static.flickr.com/2/3_4_b.jpg"

  lemma {:induction false} ExampleSourceValid()
    ensures ValidUrl(JStr(EXAMPLE_SOURCE))
  {
    var scheme, rest := "http", "//farm1.static.flickr.com/2/3_4_b.jpg";
    assert IsScheme(scheme) && ':' !in scheme;
    assert KnownProtocol(scheme) by {
      LowerKeepsLowercase(scheme);
    }
    ValidUrlOf(scheme, rest);
    assert EXAMPLE_SOURCE == scheme + [':'] + rest;
  }

  lemma {:induction false} ExampleDimensions()
    ensures ParseInt(JStr("1024")) == Some(1024) && ParseInt(JStr("512")) == Some(512)
  {
    assert DigitsValue("1024") == 1024 by {
      assert "1024"[..3] == "102" && "102"[..2] == "10" && "10"[..1] == "1" && "1"[..0] == "";
    }
    assert DigitsValue("512") == 512 by {
      assert "512"[..2] == "51" && "51"[..1] == "5" && "5"[..0] == "";
    }
  }

  lemma {:induction false} LargeLabel()
    ensures EqualsIgnoreCase("Large", JStr(LabelText(Large)))
  {
    var r := Lower("Large");
    assert r[0] == 'l' && r[1] == 'a' && r[2] == 'r' && r[3] == 'g' && r[4] == 'e';
    assert r == "large";
    LowerKeepsLowercase("large");
  }

  /** The large size of a photo, as every getSizes reply lists it, is lost by
      the handler as written and recorded by the corrected one. */
  lemma {:induction false} AsWrittenDropsLargeSize(s: SizesState)
    requires s.result.Some?
    ensures var attrs := map["label" := "Large", "width" := "1024", "height" := "512", "source" := EXAMPLE_SOURCE];
      && SizesStepAsWritten(s, Start("size", attrs)) == (s, Thrown(AssertionFailed))
      && SizesStep(s, Start("size", attrs)) == (s.(result := Some(s.result.value[Large := SizeEntry(ImageSize(1024, 512), EXAMPLE_SOURCE)])), Handled)
  {
    var attrs := map["label" := "Large", "width" := "1024", "height" := "512", "source" := EXAMPLE_SOURCE];
    assert Attr(attrs, "source") == JStr(EXAMPLE_SOURCE) && Attr(attrs, "label") == JStr("Large");
    assert Attr(attrs, "width") == JStr("1024") && Attr(attrs, "height") == JStr("512");
    ExampleSourceValid();
    ExampleDimensions();
    assert SizesStepAsWritten(s, Start("size", attrs)) == (s, Thrown(AssertionFailed)) by {
      AsWrittenNeverRecords(s, attrs);
    }
    assert SizesStep(s, Start("size", attrs)) == (s.(result := Some(s.result.value[Large := SizeEntry(ImageSize(1024, 512), EXAMPLE_SOURCE)])), Handled) by {
      LargeLabel();
      SizesStepRecords(s, attrs);
    }
  }

  /** With the label read from `label`, a `size` element with an accepted
      source and numeric dimensions sets exactly the pair of the label it
      names, and raises when it names none. */
  lemma {:induction false} SizesStepRecords(s: SizesState, attrs: Attributes)
    requires s.result.Some? && ValidUrl(Attr(attrs, "source"))
    requires ParseInt(Attr(attrs, "width")).Some? && ParseInt(Attr(attrs, "height")).Some?
    requires "label" in attrs
    ensures var (t, o) := SizesStep(s, Start("size", attrs));
      var size := ImageSize(ParseInt(Attr(attrs, "width")).value, ParseInt(Attr(attrs, "height")).value);
      && t.success == s.success
      && (forall l :: EqualsIgnoreCase(attrs["label"], JStr(LabelText(l))) ==>
            o == Handled && t.result == Some(s.result.value[l := SizeEntry(size, attrs["source"])]))
      && ((forall l :: !EqualsIgnoreCase(attrs["label"], JStr(LabelText(l)))) ==> (t, o) == (s, Thrown(AssertionFailed)))
  {
    forall l: SizeLabel {
      MatchLabelIgnoresCase(attrs["label"], l);
    }
  }

  /** `FlickrPhotoSizeRequestor.MySAXHandler`, with the label read from the
      `label` attribute. */
  class PhotoSizeHandler {
    var success: bool
    var result: Option<ImageSizes>

    function State(): SizesState
      reads this
    {
      SizesState(success, result)
    }

    constructor (previous: Option<ImageSizes>)
      ensures State() == SizesState(false, previous)
    {
      success := false;
      result := previous;
    }

    method StartElement(name: string, attrs: Attributes) returns (outcome: Outcome)
      modifies this
      ensures (State(), outcome) == SizesStep(old(State()), Start(name, attrs))
    {
      outcome := Handled;
      if name == "rsp" {
        var state := Attr(attrs, "stat");
        if state.JNull? || state.s != "ok" {
          success := false;
        } else {
          result := Some(map[]);
          success := true;
        }
      } else if name == "size" {
        if result.None? {
          outcome := Thrown(AssertionFailed);
          return;
        }
        var sizeLabel := Attr(attrs, "label");
        var srcUrl := Attr(attrs, "source");
        if !ValidUrl(srcUrl) {
          return;
        }
        var width := ParseInt(Attr(attrs, "width"));
        var height := ParseInt(Attr(attrs, "height"));
        if width.None? || height.None? {
          outcome := Thrown(NumberFormat);
          return;
        }
        if sizeLabel.JNull? {
          outcome := Thrown(NullDereference);
          return;
        }
        var entry := SizeEntry(ImageSize(width.value, height.value), srcUrl.s);
        var matched := MatchLabel(sizeLabel.s);
        if matched.None? {
          outcome := Thrown(AssertionFailed);
        } else {
          result := Some(result.value[matched.value := entry]);
        }
      }
    }
  }
}
