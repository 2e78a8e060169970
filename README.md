# OpenPanodroid core, modelled in Dafny

OpenPanodroid is an Android viewer for spherical panoramas hosted on Flickr.
The user types search tags, the app asks Flickr for matching photos, keeps
those that are equirectangular panoramas (width twice the height), lists
them with thumbnails, and on selection downloads the panorama, converts it
into the six faces of a cube and shows the cube with OpenGL.

This project models the core of that pipeline and proves properties of it:

- `Pipes` (`pipe.dfy`): the bounded in-memory pipe (`ioutils/Pipe.java`)
  over a circular byte array. A pure `PipeState` and the calls `ReadCall` /
  `WriteCall` specify it. The `Pipe` class proves its array code against them.
  A trace lemma shows that whatever interleaving of reads, writes and closes
  is replayed, the bytes delivered are exactly the bytes accepted.
- `Rest` (`rest.dfy`): the request thread (`rest/RESTRequestor.java`) with its
  query queue, cancel and terminate flags, progress throttling and one
  terminal response per query, plus the chunked bitmap download
  (`rest/RESTRequestorBitmap.java`) and its percentage reports.
- `FlickrUrls` (`flickr_urls.dfy`): the three Flickr REST URLs. They are
  built by loops that append `name=value&` fields. Each one is proved equal to
  the rendering of a parameter list, and parsing that rendering recovers
  every parameter.
- `FlickrHandlers` (`flickr_handlers.dfy`): the SAX handlers that read the
  search, photo-info and photo-size responses.
- `FlickrImage` (`image_info.dfy`): the image record, its derived image URLs
  and its `Parcel` round trip.
- `FlickrSearch` (`search.dfy`): splitting the search text into tags.
- `PanoList` (`pano_list.dfy`): the list activity's panorama filter, its
  retry policy and its thumbnail bookkeeping.
- `FlickrViewer` (`flickr_viewer.dfy`): the Flickr viewer's photo page,
  attribution text and panorama URI.
- `PanoViewer` (`viewer.dfy`): the viewer's texture sizing, download loop,
  decode check, face conversion and restore.
- `Cubic` (`cubic_pano.dfy`): the cube of six faces.
- `CubicNative` (`cubic_native.dfy`): the native face conversion
  (`jni/cubicpano-jni.cpp`). It covers pixel packing, pixel addressing in
  a locked bitmap, bilinear sampling with wrap-around, and the validation
  and painting loop of `calculateCubeSide`.
- `Common` (`common.dfy`): Java values shared by the modules. These are
  nullable strings, `Integer.parseInt`/`toString`, the `(byte)` cast,
  ASCII case folding and the `URL` constructor's scheme test.

## Model

| member | source | states |
|---|---|---|
| Common.ToJByte | src/org/openpanodroid/ioutils/Pipe.java:172-175 | the `(byte)` cast keeps the value modulo 256 and leaves values in -128..127 unchanged |
| Common.NatToString | src/org/openpanodroid/flickrapi/FlickrPhotoRequestor.java:138 | `Integer.toString` of a natural number is a non-empty string of decimal digits |
| Common.ParseInt | src/org/openpanodroid/flickrapi/FlickrPhotoRequestor.java:66-86 | `Integer.parseInt` succeeds only with a 32-bit value; a null or empty string is rejected |
| Common.ParseIntOfIntToString | src/org/openpanodroid/flickrapi/FlickrPhotoRequestor.java:66-86 | parsing `Integer.toString(n)` gives back `n` for every 32-bit `n` |
| Common.LowerChar | src/org/openpanodroid/flickrapi/FlickrPhotoSizeRequestor.java:60-80 | folding maps capital letters to small letters and leaves other characters alone |
| Common.Lower | src/org/openpanodroid/flickrapi/FlickrPhotoSizeRequestor.java:60-80 | folding a string keeps its length and folds each character |
| Common.ValidUrlOf | src/org/openpanodroid/flickrapi/FlickrPhotoSizeRequestor.java:50-56 | any text of the form `scheme:rest` whose scheme has a protocol handler (http, https, ftp, file or jar, in any case) passes the scheme test of `new URL` |
| Common.LowerKeepsLowercase | src/org/openpanodroid/flickrapi/FlickrPhotoSizeRequestor.java:60-80 | a word of small letters is its own folding |
| Common.ColonTextIsNoWord | src/org/openpanodroid/flickrapi/FlickrPhotoSizeRequestor.java:49-80 | a text holding `:` equals no word of letters, ignoring case |
| Pipes.ReadCallProperties | src/org/openpanodroid/ioutils/Pipe.java:81-135 | a read keeps the buffer invariant; it fails with an index error exactly for bad arguments and returns EOF exactly when the pipe is empty and the writer closed, and waits exactly when it is empty and the writer open; it returns a count exactly when bytes are buffered, and that count is `min(length, capacity, buffered)` bytes, consuming exactly that prefix |
| Pipes.WriteBlocksAt | src/org/openpanodroid/ioutils/Pipe.java:183-241 | a write that finds the buffer full and the reader open blocks after storing what fitted |
| Pipes.WriteCompletes | src/org/openpanodroid/ioutils/Pipe.java:183-241 | a write that has room for all its bytes appends them all |
| Pipes.WriteCallProperties | src/org/openpanodroid/ioutils/Pipe.java:183-241 | a write keeps the invariant, rejects bad arguments and closed pipes, appends a prefix of its bytes and never exceeds the capacity |
| Pipes.ApplyConserves | src/org/openpanodroid/ioutils/Pipe.java:81-265 | one read, write or close keeps `delivered + buffered == accepted` |
| Pipes.ReplayConserves | src/org/openpanodroid/ioutils/Pipe.java:81-265 | a whole trace of calls keeps `delivered + buffered == accepted` |
| Pipes.PipeRoundTrip | src/org/openpanodroid/ioutils/Pipe.java:81-281 | from a fresh pipe, any trace that ends at EOF has delivered exactly the accepted bytes, in order |
| Pipes.SlotIsMod | src/org/openpanodroid/ioutils/Pipe.java:124-125 | the wrap-around position update equals `(start + i) % length` |
| Pipes.Circular | src/org/openpanodroid/ioutils/Pipe.java:137-150 | reading `n` bytes of the ring yields `n` bytes |
| Pipes.Splice | src/org/openpanodroid/ioutils/Pipe.java:137-150 | copying into a buffer keeps its length |
| Pipes.Overwrite | src/org/openpanodroid/ioutils/Pipe.java:243-257 | writing into the ring keeps its length |
| Pipes.CircularAt | src/org/openpanodroid/ioutils/Pipe.java:137-150 | the `i`-th byte read from the ring is at slot `(start + i) mod length` |
| Pipes.OverwriteAt | src/org/openpanodroid/ioutils/Pipe.java:243-257 | writing into the ring changes exactly the slots written |
| Pipes.CopyWrapsIn | src/org/openpanodroid/ioutils/Pipe.java:243-257 | the two `arraycopy` calls of `writeCircular` overwrite the ring from the write position |
| Pipes.CopyWrapsOut | src/org/openpanodroid/ioutils/Pipe.java:137-150 | the two `arraycopy` calls of `readCircular` copy the ring's bytes in order |
| Pipes.CircularAdvance | src/org/openpanodroid/ioutils/Pipe.java:124-128 | after consuming `n` bytes the rest of the ring is read from the advanced position |
| Pipes.OverwriteAppends | src/org/openpanodroid/ioutils/Pipe.java:217-231 | writing at the slot after the buffered bytes appends to the buffered contents |
| Pipes.ArrayCopy | src/org/openpanodroid/ioutils/Pipe.java:145-149 | `System.arraycopy` copies the source range into the destination and changes nothing else |
| Pipes.Pipe.constructor | src/org/openpanodroid/ioutils/Pipe.java:268-281 | a new pipe is empty, open, with both positions at 0 and all space free |
| Pipes.Pipe.Read | src/org/openpanodroid/ioutils/Pipe.java:81-135 | the array code does what `ReadCall` specifies; the bytes land at `offset`; the read position advances modulo the capacity |
| Pipes.Pipe.Consume | src/org/openpanodroid/ioutils/Pipe.java:124-128 | dropping `n` bytes advances the read position modulo the capacity |
| Pipes.Pipe.ReadCircular | src/org/openpanodroid/ioutils/Pipe.java:137-150 | the buffer receives the ring's bytes from the read position on |
| Pipes.Pipe.ReadByte | src/org/openpanodroid/ioutils/Pipe.java:65-73 | a one-byte read blocks only on an empty open pipe, returns -1 at EOF, and otherwise returns the next byte as 0..255 (the corrected behaviour, see Findings) |
| Pipes.Pipe.Write | src/org/openpanodroid/ioutils/Pipe.java:183-241 | the array code does what `WriteCall` specifies |
| Pipes.Pipe.TransferMore | src/org/openpanodroid/ioutils/Pipe.java:217-231 | one round of the write loop appends the next bytes that fit |
| Pipes.Pipe.Transfer | src/org/openpanodroid/ioutils/Pipe.java:217-231 | copying `n` bytes in appends exactly them and takes `n` of the free space |
| Pipes.Pipe.WriteCircular | src/org/openpanodroid/ioutils/Pipe.java:243-257 | the ring is overwritten from the write position with the source bytes |
| Pipes.Pipe.WriteByte | src/org/openpanodroid/ioutils/Pipe.java:172-175 | writing one `int` writes its `(byte)` cast |
| Pipes.Pipe.CloseInput | src/org/openpanodroid/ioutils/Pipe.java:53-58 | closing the reader sets only its closed flag |
| Pipes.Pipe.CloseOutput | src/org/openpanodroid/ioutils/Pipe.java:260-265 | closing the writer sets only its closed flag |
| Pipes.NewPipe | src/org/openpanodroid/ioutils/Pipe.java:268-281 | a pipe is created exactly when the size is positive, and then empty and open |
| Pipes.SignedByteResult | src/org/openpanodroid/ioutils/Pipe.java:68 | the one-byte read as written returns the signed byte, in -128..127 |
| Pipes.UnsignedByteResult | src/org/openpanodroid/ioutils/Pipe.java:65-73 | the corrected one-byte read returns the byte in 0..255 |
| Pipes.SignedByteCollidesWithEof | src/org/openpanodroid/ioutils/Pipe.java:68 | as written, the data byte 0xFF is returned as -1, the EOF value |
| Pipes.UnsignedByteNeverEof | src/org/openpanodroid/ioutils/Pipe.java:65-73 | corrected, no data byte reads as -1 and distinct bytes read differently |
| Rest.What | src/org/openpanodroid/rest/RESTRequestor.java:35-37 | each message carries code 1, 2 or 3: 3 exactly for progress, 1 exactly for a finished response |
| Rest.IndexOf | src/org/openpanodroid/rest/RESTRequestor.java:159-166 | the index found is the first occurrence of the query |
| Rest.RemoveFirstSpec | src/org/openpanodroid/rest/RESTRequestor.java:160 | `LinkedList.remove` leaves a list without the query unchanged and otherwise removes exactly its first occurrence |
| Rest.RemoveFirstAbsent | src/org/openpanodroid/rest/RESTRequestor.java:160 | removing an absent query changes nothing |
| Rest.RemoveFirstAt | src/org/openpanodroid/rest/RESTRequestor.java:160 | removing a present query cuts it out at its first index |
| Rest.TerminalQueriesAppend | src/org/openpanodroid/rest/RESTRequestor.java:83-97 | the queries answered by a log of messages distribute over concatenation |
| Rest.TerminalQueriesOfProgress | src/org/openpanodroid/rest/RESTRequestor.java:69-81 | progress messages answer no query |
| Rest.PercentProperties | src/org/openpanodroid/rest/RESTRequestorBitmap.java:64 | the percentage is between 0 and 100, never falls as the offset grows, and is 100 at the end |
| Rest.DownloadProperties | src/org/openpanodroid/rest/RESTRequestorBitmap.java:51-71 | the chunked download keeps the bytes received in order and never more than `contentLength`; it completes exactly when all of them arrived; its percentages stay in 0..100, never fall, and end at 100 on completion |
| Rest.ForwardProperties | src/org/openpanodroid/rest/RESTRequestor.java:69-81 | `setProgress` forwards only strictly rising percentages and the last one forwarded is the maximum |
| Rest.ForwardSnoc | src/org/openpanodroid/rest/RESTRequestor.java:69-81 | one more percentage is forwarded exactly when it exceeds the last one forwarded |
| Rest.DataStep | src/org/openpanodroid/rest/RESTRequestorBitmap.java:57-64 | a data event copies at most one chunk and reports its percentage |
| Rest.CompleteDownloadReportsHundred | src/org/openpanodroid/rest/RESTRequestorBitmap.java:51-71 | a complete download ends with a 100% progress message |
| Rest.RequestMessagesProperties | src/org/openpanodroid/rest/RESTRequestor.java:99-136 | a request answers its query at most once, last, and exactly when the client did not cancel it mid-download; the answer is FINISHED exactly when the request succeeds; every other message is progress for the same query |
| Rest.RequestMessagesAsWrittenProperties | src/org/openpanodroid/rest/RESTRequestor.java:99-136 | as written, a request sends progress messages then exactly one terminal response for its query, FINISHED exactly when it succeeds |
| Rest.CancelledQueryAnsweredFailed | src/org/openpanodroid/rest/RESTRequestor.java:119-121 | as written, a query cancelled mid-download is still answered, FAILED with no result and no message |
| Rest.AnsweredAllUncancelled | src/org/openpanodroid/rest/RESTRequestor.java:153-157 | when no served query was cancelled mid-download, every served query is answered, in queue order |
| Rest.AnsweredIsSubsequence | src/org/openpanodroid/rest/RESTRequestor.java:153-157 | only served queries are answered, and no more of them than were served |
| Rest.RequestMessagesAsWritten | src/org/openpanodroid/rest/RESTRequestor.java:99-136 | the messages `doRequest` sends as written; their properties are `Rest.RequestMessagesAsWrittenProperties` |
| Rest.RequestMessages | src/org/openpanodroid/rest/RESTRequestor.java:99-136 | the messages `doRequest` sends, with no response to a query cancelled mid-download; their properties are `Rest.RequestMessagesProperties` |
| Rest.Answered | src/org/openpanodroid/rest/RESTRequestor.java:153-157 | the queries a run of requests answers: the served ones not cancelled mid-download; see `Rest.AnsweredAllUncancelled` |
| Rest.DownloadSpec | src/org/openpanodroid/rest/RESTRequestorBitmap.java:51-71 | the bytes, percentages and ending of the download loop; its properties are `Rest.DownloadProperties` |
| Rest.RoundedPercent | src/org/openpanodroid/rest/RESTRequestorBitmap.java:64 | the rounded percentage of the body received; its bounds are `Rest.PercentProperties` |
| Rest.RemoveFirst | src/org/openpanodroid/rest/RESTRequestor.java:160 | `queue.remove(query)`; its meaning is `Rest.RemoveFirstSpec` |
| Rest.Forward | src/org/openpanodroid/rest/RESTRequestor.java:69-81 | the progress messages `setProgress` lets through; see `Rest.ForwardProperties` |
| Rest.Conclude | src/org/openpanodroid/rest/RESTRequestorBitmap.java:73-86 | the terminal response after the download loop: FINISHED with the bitmap only for a whole body the decoder accepts |
| Rest.ServeNext | src/org/openpanodroid/rest/RESTRequestor.java:153-157 | serving the next query of a duplicate-free queue extends the answered queries as `Answered` says and leaves the query out of the rest of the queue |
| Rest.Requestor.constructor | src/org/openpanodroid/rest/RESTRequestor.java:50-52 | a new requestor has an empty queue, no current query and no messages sent |
| Rest.Requestor.AddQuery | src/org/openpanodroid/rest/RESTRequestor.java:189-196 | the query joins the back of the queue and no other field changes |
| Rest.Requestor.CancelQuery | src/org/openpanodroid/rest/RESTRequestor.java:159-166 | cancelling removes the first queued occurrence; it sets the cancel and interrupt flags exactly when the query is the running one |
| Rest.Requestor.Terminate | src/org/openpanodroid/rest/RESTRequestor.java:172-175 | the terminate and interrupt flags are set and no other field changes |
| Rest.Requestor.SetProgress | src/org/openpanodroid/rest/RESTRequestor.java:69-81 | a progress message is sent exactly when the percentage rises |
| Rest.Requestor.NotifyClient | src/org/openpanodroid/rest/RESTRequestor.java:83-97 | one response is sent, FINISHED exactly when the request succeeded, with the result and message gathered; no other field changes |
| Rest.Requestor.InitQuery | src/org/openpanodroid/rest/RESTRequestor.java:138-146 | the state is reset and the head of the queue becomes current; on an empty queue the wait ends only by interrupt |
| Rest.Requestor.FinishQuery | src/org/openpanodroid/rest/RESTRequestor.java:148-150 | the current query is cleared and no other field changes |
| Rest.Requestor.ParseResponse | src/org/openpanodroid/rest/RESTRequestorBitmap.java:45-87 | the bitmap parse sets success, result and error as the download specification says |
| Rest.Requestor.ReceiveBody | src/org/openpanodroid/rest/RESTRequestorBitmap.java:51-71 | the read loop fills a fresh buffer as the download specification says |
| Rest.Requestor.ReceiveChunk | src/org/openpanodroid/rest/RESTRequestorBitmap.java:57-64 | one read copies `min(available, chunk)` bytes and forwards its percentage |
| Rest.Requestor.DoRequest | src/org/openpanodroid/rest/RESTRequestor.java:99-136 | a queued query is served with exactly the messages `RequestMessages` gives (no response after a mid-download cancel), FINISHED exactly when it succeeds; on an empty queue the call ends only by interrupt, sending nothing |
| Rest.Requestor.Run | src/org/openpanodroid/rest/RESTRequestor.java:153-157 | the thread only appends messages; if terminated it sends nothing; with distinct queries the terminal responses answer the served prefix of the queue in order, leaving out exactly the queries cancelled mid-download |
| Rest.Fill | src/org/openpanodroid/rest/RESTRequestorBitmap.java:57-60 | received bytes are stored at the offset and the rest of the buffer is kept |
| FlickrUrls.KeyTextPlain | src/org/openpanodroid/flickrapi/FlickrPhotoRequestor.java:98-171 | no parameter name contains `&` or `=` |
| FlickrUrls.KeyTextDistinct | src/org/openpanodroid/flickrapi/FlickrPhotoRequestor.java:98-171 | distinct parameters have distinct names |
| FlickrUrls.Find | src/org/openpanodroid/flickrapi/FlickrPhotoRequestor.java:98-171 | the index found is the first occurrence of the separator |
| FlickrUrls.FindFirst | src/org/openpanodroid/flickrapi/FlickrPhotoRequestor.java:98-171 | a first occurrence is what `Find` returns |
| FlickrUrls.Split | src/org/openpanodroid/flickrapi/FlickrPhotoRequestor.java:106-114 | splitting yields at least one piece |
| FlickrUrls.JoinSnoc | src/org/openpanodroid/flickrapi/FlickrPhotoRequestor.java:106-114 | joining one more item appends the separator and the item |
| FlickrUrls.SplitJoin | src/org/openpanodroid/flickrapi/FlickrPhotoRequestor.java:106-114 | splitting a join of separator-free items gives the items back |
| FlickrUrls.Fields | src/org/openpanodroid/flickrapi/FlickrPhotoRequestor.java:98-171 | each parameter is rendered as its own `name=value` field |
| FlickrUrls.Cuts | src/org/openpanodroid/flickrapi/FlickrPhotoRequestor.java:98-171 | each field is cut at its `=` |
| FlickrUrls.Texts | src/org/openpanodroid/flickrapi/FlickrPhotoRequestor.java:98-171 | the name/value pairs of a parameter list, in order |
| FlickrUrls.NamedReadable | src/org/openpanodroid/flickrapi/FlickrPhotoRequestor.java:98-171 | parameters with plain names and `&`-free values can be read back |
| FlickrUrls.FieldParse | src/org/openpanodroid/flickrapi/FlickrPhotoRequestor.java:98-171 | cutting a rendered field gives its name and value back |
| FlickrUrls.Query | src/org/openpanodroid/flickrapi/FlickrPhotoRequestor.java:98-171 | a rendered URL is the Flickr endpoint, `/?`, and the query |
| FlickrUrls.FieldsFree | src/org/openpanodroid/flickrapi/FlickrPhotoRequestor.java:98-171 | no rendered field contains `&` |
| FlickrUrls.RenderParse | src/org/openpanodroid/flickrapi/FlickrPhotoRequestor.java:98-171 | parsing the rendered query gives back every name/value pair, in order |
| FlickrUrls.Emit | src/org/openpanodroid/flickrapi/FlickrPhotoRequestor.java:102-157 | appending `name=value&` extends the rendering by one parameter |
| FlickrUrls.TerminatedAppend | src/org/openpanodroid/flickrapi/FlickrPhotoRequestor.java:102-157 | `&`-terminated fields distribute over concatenation |
| FlickrUrls.EmitGroup | src/org/openpanodroid/flickrapi/FlickrPhotoRequestor.java:102-157 | appending a group's fields extends the rendering by the group |
| FlickrUrls.Finish | src/org/openpanodroid/flickrapi/FlickrPhotoRequestor.java:160 | the last field without `&` completes the rendering |
| FlickrUrls.TerminatedJoin | src/org/openpanodroid/flickrapi/FlickrPhotoRequestor.java:102-160 | terminated fields plus a last field equal the `&`-join of all fields |
| FlickrUrls.TerminatedRender | src/org/openpanodroid/flickrapi/FlickrPhotoRequestor.java:102-160 | the string built step by step is the rendering of the whole list |
| FlickrUrls.Keys | src/org/openpanodroid/flickrapi/FlickrPhotoRequestor.java:98-171 | one key per parameter |
| FlickrUrls.LookupAppend | src/org/openpanodroid/flickrapi/FlickrPhotoRequestor.java:98-171 | looking up a key in a concatenation finds its first occurrence |
| FlickrUrls.KeysAppend | src/org/openpanodroid/flickrapi/FlickrPhotoRequestor.java:98-171 | keys distribute over concatenation |
| FlickrUrls.LookupBefore | src/org/openpanodroid/flickrapi/FlickrPhotoRequestor.java:98-171 | a key in the front part is found there |
| FlickrUrls.LookupAbsent | src/org/openpanodroid/flickrapi/FlickrPhotoRequestor.java:98-171 | a key not present is not found |
| FlickrUrls.LookupGroups | src/org/openpanodroid/flickrapi/FlickrPhotoRequestor.java:98-171 | lookup in the search URL's groups finds the first group holding the key |
| FlickrUrls.KeysGroups | src/org/openpanodroid/flickrapi/FlickrPhotoRequestor.java:98-171 | the search URL's keys are its groups' keys in order |
| FlickrUrls.GroupEnds | src/org/openpanodroid/flickrapi/FlickrPhotoRequestor.java:98-171 | the last parameter of the search URL is `min_upload_date` |
| FlickrUrls.HeadKeys | src/org/openpanodroid/flickrapi/FlickrPhotoRequestor.java:103-104 | the URL starts with `method` then `api_key` |
| FlickrUrls.TagKeys | src/org/openpanodroid/flickrapi/FlickrPhotoRequestor.java:106-117 | `tags` and `tag_mode` appear exactly when the tag list is non-null and non-empty |
| FlickrUrls.GeoKeys | src/org/openpanodroid/flickrapi/FlickrPhotoRequestor.java:119-130 | the five location fields appear exactly when a centre is set and the radius is positive |
| FlickrUrls.CountKeys | src/org/openpanodroid/flickrapi/FlickrPhotoRequestor.java:133-142 | `content_type` and `per_page` always appear, `page` exactly for a positive page number, with their decimal values |
| FlickrUrls.SortKeys | src/org/openpanodroid/flickrapi/FlickrPhotoRequestor.java:144-156 | `sort` then `extras`, with the sort value of the criterion |
| FlickrUrls.SearchShaped | src/org/openpanodroid/flickrapi/FlickrPhotoRequestor.java:98-171 | the search parameter groups have the shape the lookup lemmas need |
| FlickrUrls.TagLookup | src/org/openpanodroid/flickrapi/FlickrPhotoRequestor.java:106-117 | a tag key is found in the tag group |
| FlickrUrls.CountLookup | src/org/openpanodroid/flickrapi/FlickrPhotoRequestor.java:133-142 | a count key is found in the count group, and only there |
| FlickrUrls.SortLookup | src/org/openpanodroid/flickrapi/FlickrPhotoRequestor.java:144-153 | `sort` is found in the sort group |
| FlickrUrls.GeoPresent | src/org/openpanodroid/flickrapi/FlickrPhotoRequestor.java:119-130 | `lat` appears exactly when the location group is non-empty |
| FlickrUrls.SearchParamsFrame | src/org/openpanodroid/flickrapi/FlickrPhotoRequestor.java:102-104 | the search URL begins with `method=flickr.photos.search`, the API key, and ends with `min_upload_date=1990-01-01` |
| FlickrUrls.SearchParamsSort | src/org/openpanodroid/flickrapi/FlickrPhotoRequestor.java:144-153 | the sort value is `interestingness-desc` or `date-posted-desc` as chosen |
| FlickrUrls.SearchParamsTags | src/org/openpanodroid/flickrapi/FlickrPhotoRequestor.java:106-117 | `tags` holds the comma join of the tags exactly when there are tags |
| FlickrUrls.SearchParamsTagMode | src/org/openpanodroid/flickrapi/FlickrPhotoRequestor.java:116 | `tag_mode=all` appears exactly when there are tags |
| FlickrUrls.SearchParamsGeo | src/org/openpanodroid/flickrapi/FlickrPhotoRequestor.java:119-130 | `lat` appears exactly when a centre is set and the radius is positive |
| FlickrUrls.SearchParamsPage | src/org/openpanodroid/flickrapi/FlickrPhotoRequestor.java:138-142 | `per_page` is always given; `page` appears exactly for a positive page number |
| FlickrUrls.JoinTags | src/org/openpanodroid/flickrapi/FlickrPhotoRequestor.java:107-114 | the iterator loop builds the comma join of the tags |
| FlickrUrls.BuildSearchUrl | src/org/openpanodroid/flickrapi/FlickrPhotoRequestor.java:98-171 | the search URL built step by step is the rendering of the search parameters |
| FlickrUrls.HeadText | src/org/openpanodroid/flickrapi/FlickrPhotoRequestor.java:102-104 | the fixed head text is the rendering of the head parameters |
| FlickrUrls.AppendTagParams | src/org/openpanodroid/flickrapi/FlickrPhotoRequestor.java:106-117 | the tag block appends the terminated tag fields |
| FlickrUrls.AppendGeoParams | src/org/openpanodroid/flickrapi/FlickrPhotoRequestor.java:119-130 | the location block appends the terminated location fields |
| FlickrUrls.AppendCountParams | src/org/openpanodroid/flickrapi/FlickrPhotoRequestor.java:133-142 | the count block appends the terminated count fields |
| FlickrUrls.AppendSortParams | src/org/openpanodroid/flickrapi/FlickrPhotoRequestor.java:144-156 | the sort block appends the terminated sort and extras fields |
| FlickrUrls.BuildInfoUrl | src/org/openpanodroid/flickrapi/FlickrPhotoInfoRequestor.java:83-86 | the info URL is the rendering of `method=flickr.photos.getInfo`, the key and `photo_id` |
| FlickrUrls.BuildSizeUrl | src/org/openpanodroid/flickrapi/FlickrPhotoSizeRequestor.java:100-103 | the size URL is the rendering of `method=flickr.photos.getSizes`, the key and `photo_id` |
| FlickrUrls.PhotoUrl | src/org/openpanodroid/flickrapi/FlickrPhotoInfoRequestor.java:83-86 | the concatenated photo URL text equals its rendering |
| FlickrUrls.SearchUrlRecoversTags | src/org/openpanodroid/flickrapi/FlickrPhotoRequestor.java:106-117 | parsing the search URL and splitting `tags` at commas gives back the comma-free tags |
| FlickrUrls.JoinFree | src/org/openpanodroid/flickrapi/FlickrPhotoRequestor.java:107-114 | a join of items free of a character, with another separator, is free of it |
| FlickrUrls.NamedAppend | src/org/openpanodroid/flickrapi/FlickrPhotoRequestor.java:98-171 | plain parameter names survive concatenation |
| FlickrUrls.NamedGroups | src/org/openpanodroid/flickrapi/FlickrPhotoRequestor.java:98-171 | every search group has plain names |
| FlickrUrls.NamedGeo | src/org/openpanodroid/flickrapi/FlickrPhotoRequestor.java:119-130 | the location group has plain names |
| FlickrUrls.NamedCounts | src/org/openpanodroid/flickrapi/FlickrPhotoRequestor.java:133-142 | the count group has plain names |
| FlickrUrls.NamedSearch | src/org/openpanodroid/flickrapi/FlickrPhotoRequestor.java:98-171 | the search parameters have plain names |
| FlickrUrls.PlainAppend | src/org/openpanodroid/flickrapi/FlickrPhotoRequestor.java:98-171 | `&`-free values survive concatenation |
| FlickrUrls.PlainSearch | src/org/openpanodroid/flickrapi/FlickrPhotoRequestor.java:98-171 | every search value other than the tags and the location is free of `&` |
| FlickrUrls.PlainCounts | src/org/openpanodroid/flickrapi/FlickrPhotoRequestor.java:133-142 | the count values are free of `&` |
| FlickrUrls.PlainFixed | src/org/openpanodroid/flickrapi/FlickrPhotoRequestor.java:102-160 | the fixed values are free of `&` |
| FlickrUrls.PlainHead | src/org/openpanodroid/flickrapi/FlickrPhotoRequestor.java:103-104 | the head values are free of `&` |
| FlickrUrls.PlainSort | src/org/openpanodroid/flickrapi/FlickrPhotoRequestor.java:144-156 | the sort and extras values are free of `&` |
| FlickrUrls.PlainLast | src/org/openpanodroid/flickrapi/FlickrPhotoRequestor.java:160 | the last value is free of `&` |
| FlickrUrls.PlainExtras | src/org/openpanodroid/flickrapi/FlickrPhotoRequestor.java:156 | the extras list is free of `&` |
| FlickrUrls.IntToStringPlain | src/org/openpanodroid/flickrapi/FlickrPhotoRequestor.java:138-141 | a decimal number is free of `&` |
| FlickrHandlers.Attr | src/org/openpanodroid/flickrapi/FlickrPhotoRequestor.java:58-82 | `getValue` is non-null exactly for a present attribute |
| FlickrHandlers.SizeAttrs | src/org/openpanodroid/flickrapi/FlickrPhotoRequestor.java:66-86 | a size is read exactly when both dimensions parse |
| FlickrHandlers.SizeAttrsRoundTrip | src/org/openpanodroid/flickrapi/FlickrPhotoRequestor.java:66-86 | printed dimensions read back as the same size; a missing attribute gives no size |
| FlickrHandlers.SearchRunAppends | src/org/openpanodroid/flickrapi/FlickrPhotoRequestor.java:56-88 | after an `ok` response each `photo` element appends one image record |
| FlickrHandlers.SearchResponse | src/org/openpanodroid/flickrapi/FlickrPhotoRequestor.java:44-91 | a response with `stat="ok"` succeeds with exactly the listed photos; any other stat fails |
| FlickrHandlers.SearchRunKeepsFailure | src/org/openpanodroid/flickrapi/FlickrPhotoRequestor.java:46-55 | once failed, a search response stays failed |
| FlickrHandlers.PhotoSearchHandler.constructor | src/org/openpanodroid/flickrapi/FlickrPhotoRequestor.java:44-91 | a new handler has not yet succeeded |
| FlickrHandlers.PhotoSearchHandler.StartElement | src/org/openpanodroid/flickrapi/FlickrPhotoRequestor.java:45-89 | the handler's `startElement` does what the search step specifies |
| FlickrHandlers.InfoStepFrames | src/org/openpanodroid/flickrapi/FlickrPhotoInfoRequestor.java:50-58 | `owner` sets only the owner fields and `photo` only the photo fields |
| FlickrHandlers.TitleTakesFirstChunk | src/org/openpanodroid/flickrapi/FlickrPhotoInfoRequestor.java:59-72 | the title is the first text chunk after `title`; later chunks are ignored |
| FlickrHandlers.IgnoredChunks | src/org/openpanodroid/flickrapi/FlickrPhotoInfoRequestor.java:65-72 | text outside a pending title changes nothing |
| FlickrHandlers.PhotoInfoHandler.constructor | src/org/openpanodroid/flickrapi/FlickrPhotoInfoRequestor.java:36-72 | a new handler has not succeeded and waits for no title |
| FlickrHandlers.PhotoInfoHandler.StartElement | src/org/openpanodroid/flickrapi/FlickrPhotoInfoRequestor.java:39-63 | `startElement` does what the info step specifies |
| FlickrHandlers.PhotoInfoHandler.Characters | src/org/openpanodroid/flickrapi/FlickrPhotoInfoRequestor.java:65-72 | `characters` does what the info step specifies |
| FlickrHandlers.LabelText | src/org/openpanodroid/flickrapi/FlickrPhotoSizeRequestor.java:60-80 | each size label is a non-empty word of small letters |
| FlickrHandlers.MatchLabel | src/org/openpanodroid/flickrapi/FlickrPhotoSizeRequestor.java:60-80 | the label matched is the one the folded text equals; no match means no label equals it |
| FlickrHandlers.MatchLabelIgnoresCase | src/org/openpanodroid/flickrapi/FlickrPhotoSizeRequestor.java:60-80 | matching a label is exactly `equalsIgnoreCase` against it |
| FlickrHandlers.ColonMatchesNoLabel | src/org/openpanodroid/flickrapi/FlickrPhotoSizeRequestor.java:49-80 | a text holding `:` matches no label |
| FlickrHandlers.AsWrittenNeverRecords | src/org/openpanodroid/flickrapi/FlickrPhotoSizeRequestor.java:46-81 | as written, a `size` element with a valid URL never records a size and always reaches `Assert.fail` |
| FlickrHandlers.ExampleSourceValid | src/org/openpanodroid/flickrapi/FlickrPhotoSizeRequestor.java:50-56 | the example image URL passes the `URL` test |
| FlickrHandlers.ExampleDimensions | src/org/openpanodroid/flickrapi/FlickrPhotoSizeRequestor.java:57-58 | the example dimensions parse |
| FlickrHandlers.LargeLabel | src/org/openpanodroid/flickrapi/FlickrPhotoSizeRequestor.java:72 | `Large` equals the label `large`, ignoring case |
| FlickrHandlers.AsWrittenDropsLargeSize | src/org/openpanodroid/flickrapi/FlickrPhotoSizeRequestor.java:49 | as written, a well-formed `Large` size element records nothing |
| FlickrHandlers.SizesStepRecords | src/org/openpanodroid/flickrapi/FlickrPhotoSizeRequestor.java:46-81 | corrected, a size element with a known label and a valid URL records its size and URL under that label |
| FlickrHandlers.PhotoSizeHandler.constructor | src/org/openpanodroid/flickrapi/FlickrPhotoSizeRequestor.java:34-83 | a new handler has not succeeded |
| FlickrHandlers.PhotoSizeHandler.StartElement | src/org/openpanodroid/flickrapi/FlickrPhotoSizeRequestor.java:35-82 | `startElement` does what the corrected size step specifies |
| FlickrImage.SizedUrl | src/org/openpanodroid/flickrapi/FlickrImageInfo.java:63-159 | the URL fetched for a size class is the image's URL base followed by the suffix of that size; by `FlickrImage.SizedUrlsDistinct` no two size classes of one image share a URL |
| FlickrImage.SizedUrlsDistinct | src/org/openpanodroid/flickrapi/FlickrImageInfo.java:74-159 | two sized URLs of one image are equal exactly when the sizes are |
| FlickrImage.SuffixInjective | src/org/openpanodroid/flickrapi/FlickrImageInfo.java:74-159 | distinct sizes have distinct suffixes |
| FlickrImage.OriginalUrl | src/org/openpanodroid/flickrapi/FlickrImageInfo.java:161-180 | the original URL is missing exactly when the original secret or format is null, and otherwise uses the original secret and format |
| FlickrImage.Parcel.constructor | src/org/openpanodroid/flickrapi/FlickrImageInfo.java:225-261 | a new parcel is empty and read from its start |
| FlickrImage.Parcel.WriteString | src/org/openpanodroid/flickrapi/FlickrImageInfo.java:226-234 | `writeString` appends one string token |
| FlickrImage.Parcel.WriteInt | src/org/openpanodroid/flickrapi/FlickrImageInfo.java:236-259 | `writeInt` appends one integer token |
| FlickrImage.Parcel.ReadString | src/org/openpanodroid/flickrapi/FlickrImageInfo.java:183-191 | `readString` returns the string at the position and moves on by one |
| FlickrImage.Parcel.ReadInt | src/org/openpanodroid/flickrapi/FlickrImageInfo.java:193-217 | `readInt` returns the integer at the position and moves on by one |
| FlickrImage.Encode | src/org/openpanodroid/flickrapi/FlickrImageInfo.java:225-261 | an image record is written as 16 tokens |
| FlickrImage.SizeOf | src/org/openpanodroid/flickrapi/FlickrImageInfo.java:193-217 | the size the Parcel constructor rebuilds exists exactly when both dimensions are positive; by `FlickrImage.SizeRoundTrip` it is the written size when that is positive |
| FlickrImage.WriteToParcel | src/org/openpanodroid/flickrapi/FlickrImageInfo.java:225-261 | writing a record appends its encoding |
| FlickrImage.WriteStrings | src/org/openpanodroid/flickrapi/FlickrImageInfo.java:226-234 | the nine strings are appended in field order |
| FlickrImage.WriteSize | src/org/openpanodroid/flickrapi/FlickrImageInfo.java:236-259 | a size is appended as two integers, a missing one as `-1, -1` |
| FlickrImage.ReadFromParcel | src/org/openpanodroid/flickrapi/FlickrImageInfo.java:182-219 | reading a record decodes the tokens at the position |
| FlickrImage.ReadSize | src/org/openpanodroid/flickrapi/FlickrImageInfo.java:193-217 | reading a size consumes two integers and restores the size |
| FlickrImage.Positive | src/org/openpanodroid/flickrapi/FlickrImageInfo.java:193-217 | a size survives writing and reading exactly when both its dimensions are positive; `FlickrImage.NormalizeFixes` lifts this to whole records |
| FlickrImage.NormalizeFixes | src/org/openpanodroid/flickrapi/FlickrImageInfo.java:182-261 | a record survives the parcel unchanged exactly when all its sizes are positive |
| FlickrImage.DecodeWindow | src/org/openpanodroid/flickrapi/FlickrImageInfo.java:182-219 | a record is read from the 16 tokens at the position |
| FlickrImage.SizeRoundTrip | src/org/openpanodroid/flickrapi/FlickrImageInfo.java:193-259 | writing then reading a size keeps it if positive and drops it otherwise |
| FlickrImage.DecodeEncode | src/org/openpanodroid/flickrapi/FlickrImageInfo.java:182-261 | reading back a written record gives the record, with non-positive sizes dropped |
| FlickrImage.ParcelRoundTrip | src/org/openpanodroid/flickrapi/FlickrImageInfo.java:182-261 | the round trip holds anywhere inside a parcel and consumes exactly 16 tokens |
| FlickrImage.ParcelTrip | src/org/openpanodroid/flickrapi/FlickrImageInfo.java:182-261 | writing a record to a parcel and reading it back gives the normalised record |
| FlickrSearch.Run | src/org/openpanodroid/FlickrSearchActivity.java:105-107 | the run measured is the longest prefix free of space and comma |
| FlickrSearch.Strip | src/org/openpanodroid/FlickrSearchActivity.java:105 | removing the delimiters leaves no delimiter |
| FlickrSearch.TokensAreWords | src/org/openpanodroid/FlickrSearchActivity.java:102-110 | every token is non-empty and free of space and comma |
| FlickrSearch.StripRun | src/org/openpanodroid/FlickrSearchActivity.java:105-107 | a delimiter-free prefix is kept whole when stripping |
| FlickrSearch.TokensConcat | src/org/openpanodroid/FlickrSearchActivity.java:102-110 | the tokens joined together are the text with its delimiters removed |
| FlickrSearch.RunOfWord | src/org/openpanodroid/FlickrSearchActivity.java:105-107 | a run stops at the end of a word followed by a delimiter |
| FlickrSearch.RunBound | src/org/openpanodroid/FlickrSearchActivity.java:105-107 | a delimiter-free stretch ending at a delimiter or the end is the run |
| FlickrSearch.TokensOfJoin | src/org/openpanodroid/FlickrSearchActivity.java:102-110 | tokenizing words joined by spaces gives back the words |
| FlickrSearch.DelimiterAt | src/org/openpanodroid/FlickrSearchActivity.java:105-107 | a delimiter yields no token |
| FlickrSearch.TokenAt | src/org/openpanodroid/FlickrSearchActivity.java:105-107 | a delimiter-free stretch is the next token |
| FlickrSearch.RunEnd | src/org/openpanodroid/FlickrSearchActivity.java:106-107 | the scan stops at the next delimiter or the end |
| FlickrSearch.TokenizeString | src/org/openpanodroid/FlickrSearchActivity.java:102-110 | the tokenizer loop returns exactly the tokens of the text |
| FlickrSearch.StartPanoListActivity | src/org/openpanodroid/FlickrSearchActivity.java:77-100 | the search parameters carry the tokens, the sort chosen by the check box and the low-resolution choice |
| PanoList.ClearOriginal | src/org/openpanodroid/FlickrPanoListActivity.java:536-555 | clearing the original fields leaves no original URL |
| PanoList.CleanOriginalKeepsUsable | src/org/openpanodroid/FlickrPanoListActivity.java:536-555 | the original fields are kept exactly when the original is complete, a JPEG and not too wide |
| PanoList.FilterOneAccepts | src/org/openpanodroid/FlickrPanoListActivity.java:520-563 | an image is kept exactly when it has a large size of aspect 2:1 and, unless low resolution is allowed, a wide enough original |
| PanoList.FilterAppend | src/org/openpanodroid/FlickrPanoListActivity.java:520-563 | the filter distributes over concatenation |
| PanoList.FilterSurvivors | src/org/openpanodroid/FlickrPanoListActivity.java:520-563 | every kept image is accepted and has a usable original or none |
| PanoList.FilterImageInfos | src/org/openpanodroid/FlickrPanoListActivity.java:520-563 | the filter loop returns exactly the filtered list |
| PanoList.DecideRetries | src/org/openpanodroid/FlickrPanoListActivity.java:318-350 | the search retries exactly when results are too few and tries remain; it stops with enough results; it reports no images only with zero results |
| PanoList.SearchQueryTags | src/org/openpanodroid/FlickrPanoListActivity.java:460-483 | the search URL of the list's query carries the search tags |
| PanoList.PositionsSnoc | src/org/openpanodroid/FlickrPanoListActivity.java:381-394 | one more thumbnail query adds its position |
| PanoList.PanoListActivity.constructor | src/org/openpanodroid/FlickrPanoListActivity.java:410-414 | a new list has no images, queries or thumbnails |
| PanoList.PanoListActivity.CreatePhotoQuery | src/org/openpanodroid/FlickrPanoListActivity.java:460-483 | the query uses the search parameters and the current page |
| PanoList.PanoListActivity.StartPhotoSearch | src/org/openpanodroid/FlickrPanoListActivity.java:485-491 | a new search moves to the next page, resets the counters and issues one query |
| PanoList.PanoListActivity.ContinuePhotoSearch | src/org/openpanodroid/FlickrPanoListActivity.java:504-510 | a retry moves to the next page, counts the try and issues one query |
| PanoList.PanoListActivity.ProcessNewImages | src/org/openpanodroid/FlickrPanoListActivity.java:308-351 | the kept images are appended, counted, and the search retries as the decision says |
| PanoList.PanoListActivity.AddImages | src/org/openpanodroid/FlickrPanoListActivity.java:311-314 | each image is appended with an empty thumbnail slot |
| PanoList.PanoListActivity.LoadThumbnail | src/org/openpanodroid/FlickrPanoListActivity.java:381-394 | a thumbnail is requested at most once per position |
| PanoList.PanoListActivity.ThumbnailReceived | src/org/openpanodroid/FlickrPanoListActivity.java:187-189 | the received bitmap fills the slot of its query's position and nothing else |
| FlickrViewer.PhotoPageParts | src/org/openpanodroid/FlickrPanoViewerActivity.java:48-58 | the photo page URL is the Flickr photos base followed by `owner/id/`, and both can be read back from it |
| FlickrViewer.Author | src/org/openpanodroid/FlickrPanoViewerActivity.java:63-65 | the real name if non-empty, otherwise the user name; `FlickrViewer.AuthorIsAName` shows it is always one of the owner's names |
| FlickrViewer.AttributionLines | src/org/openpanodroid/FlickrPanoViewerActivity.java:60-73 | the attribution has four lines: the title (empty when null), the word "by", the author and the owner's photo stream URL |
| FlickrViewer.AuthorIsAName | src/org/openpanodroid/FlickrPanoViewerActivity.java:63-65 | the author is one of the owner's names, the user name only when the real name is empty, and empty only when both are |
| FlickrViewer.PhotoPageUrl | src/org/openpanodroid/FlickrPanoViewerActivity.java:48-58 | the photo page URL; its parts are `FlickrViewer.PhotoPageParts` |
| FlickrViewer.Attribution | src/org/openpanodroid/FlickrPanoViewerActivity.java:60-73 | the attribution text; its lines are `FlickrViewer.AttributionLines` |
| FlickrViewer.PanoUri | src/org/openpanodroid/FlickrPanoViewerActivity.java:117-129 | the URI of the image to show; see `FlickrViewer.ListedPanoUri` |
| FlickrViewer.ListedPanoUri | src/org/openpanodroid/FlickrPanoViewerActivity.java:117-129 | a panorama that passed the list filter is loaded from its original URL exactly when the original is usable, and from its 1024-pixel URL otherwise |
| Cubic.NewCubicPanoFaces | src/org/openpanodroid/CubicPano.java:30-86 | a cube is built exactly when all six faces are present, square and of one size, and `getFace` then returns each face it was built with |
| PanoViewer.CeilExpIsSmallest | src/org/openpanodroid/PanoViewerActivity.java:671-679 | the exponent found is the smallest whose power of two reaches the number |
| PanoViewer.Pow2Thirty | src/org/openpanodroid/PanoViewerActivity.java:671-679 | 2^30 fits a Java `int` and 2^31 does not: 2^30 is the largest power of two an `int` holds |
| PanoViewer.ToPowerOfTwo | src/org/openpanodroid/PanoViewerActivity.java:671-679 | the loop returns the smallest power of two not below the number, a 32-bit value |
| PanoViewer.Wrap32Values | src/org/openpanodroid/PanoViewerActivity.java:675 | Java `int` arithmetic wraps 2^31 to -2^31 and -2^32 to 0 |
| PanoViewer.WrappedDoublingValues | src/org/openpanodroid/PanoViewerActivity.java:674-676 | doubling 1 in Java `int` gives 2^k up to k = 30, then -2^31, then 0 forever |
| PanoViewer.DoublingOverflows | src/org/openpanodroid/PanoViewerActivity.java:674-676 | for a number above 2^30 the doubled value stays below it at every step, so the loop never ends |
| PanoViewer.MaxTextureSizeChoice | src/org/openpanodroid/PanoViewerActivity.java:640-649 | the preference is used when it parses and the default otherwise; any 32-bit number stored is read back |
| PanoViewer.TextureSize | src/org/openpanodroid/PanoViewerActivity.java:640-663 | the texture size is the power of two above the optimal size, capped at the maximum |
| PanoViewer.RunningTotals | src/org/openpanodroid/PanoViewerActivity.java:209-216 | one running total per chunk |
| PanoViewer.RunningTotalsRise | src/org/openpanodroid/PanoViewerActivity.java:209-216 | running totals never fall and each adds its chunk |
| PanoViewer.DownloadLoop | src/org/openpanodroid/PanoViewerActivity.java:206-216 | the loop writes the chunks read before a cancel into the pipe, in order, and publishes each running total when the length is known |
| PanoViewer.CheckDecoded | src/org/openpanodroid/PanoViewerActivity.java:266-285 | a missing bitmap is a load failure and a present one is accepted exactly when it is twice as wide as high; `PanoViewer.CheckDecodedMatchesConverter` shows this is the native converter's 2:1 test |
| PanoViewer.CheckDecodedMatchesConverter | src/org/openpanodroid/PanoViewerActivity.java:266-285 | a bitmap is rejected as invalid exactly when the native converter refuses it as not 2:1, and an accepted one converts given a square RGBA_8888 face and both locks |
| PanoViewer.FacesDone | src/org/openpanodroid/PanoViewerActivity.java:314-392 | the faces converted are the run of ready faces before the first cancel |
| PanoViewer.ConvertFaces | src/org/openpanodroid/PanoViewerActivity.java:314-392 | the six faces are converted in order front, back, top, bottom, right, left; the cube is built, with left and right in their slots, only if all six finish |
| PanoViewer.RestoreFaces | src/org/openpanodroid/PanoViewerActivity.java:484-553 | the panorama is downloaded again exactly when a saved face is missing, and then the present faces are recycled; otherwise the cube is rebuilt from the saved faces |
| CubicNative.ChannelsRoundTrip | jni/cubicpano-jni.cpp:47-49 | the channel accessors read back the channels a pixel was packed from |
| CubicNative.PixelOfChannels | jni/cubicpano-jni.cpp:68-70 | packing a pixel's own channels gives the pixel |
| CubicNative.WordOfBytes | jni/cubicpano-jni.cpp:72-80 | the four stored bytes of a word form the word again |
| CubicNative.ChannelBytes | jni/cubicpano-jni.cpp:47-49 | the `BLUE`, `GREEN` and `RED` macros read memory bytes 0, 1 and 2 of a little-endian pixel, and byte 3 is its alpha byte |
| CubicNative.Store | jni/cubicpano-jni.cpp:77-80 | storing a word changes only its four bytes |
| CubicNative.StoreThenLoad | jni/cubicpano-jni.cpp:72-80 | a stored pixel reads back unchanged |
| CubicNative.StoreElsewhere | jni/cubicpano-jni.cpp:72-80 | storing a pixel leaves non-overlapping pixels unchanged |
| CubicNative.SetPixelRGBA | jni/cubicpano-jni.cpp:77-80 | `setPixelRGBA` stores the pixel at `y * stride + x * 4` |
| CubicNative.RowsApart | jni/cubicpano-jni.cpp:72-80 | each row ends before the next one starts |
| CubicNative.PixelInBuffer | jni/cubicpano-jni.cpp:72-80 | every pixel of a laid-out bitmap lies inside its buffer |
| CubicNative.PixelsApart | jni/cubicpano-jni.cpp:72-80 | two distinct pixels never share a byte |
| CubicNative.CRem | jni/cubicpano-jni.cpp:88-91 | C's `%` truncates: the remainder takes the dividend's sign |
| CubicNative.Truncate | jni/cubicpano-jni.cpp:83-86 | the `(int)` cast of a non-negative value is its floor |
| CubicNative.Wrap | jni/cubicpano-jni.cpp:88-91 | a neighbour index wraps into range; the index one past the edge wraps to 0 |
| CubicNative.Neighbours | jni/cubicpano-jni.cpp:82-91 | the four neighbours of a sample lie inside the bitmap |
| CubicNative.NeighboursWrap | jni/cubicpano-jni.cpp:82-91 | the neighbours are the floor cell and its right and lower neighbours, wrapping at the edge |
| CubicNative.Samples | jni/cubicpano-jni.cpp:88-91 | four samples are read |
| CubicNative.SamplesRead | jni/cubicpano-jni.cpp:88-107 | the samples are the pixels at the four neighbours |
| CubicNative.Weights | jni/cubicpano-jni.cpp:109-122 | the two weights are non-negative and sum to one |
| CubicNative.LerpBetween | jni/cubicpano-jni.cpp:109-122 | a weighted mean stays between any bounds both values keep |
| CubicNative.RoundBetween | jni/cubicpano-jni.cpp:109-126 | rounding a value between two integers stays between them |
| CubicNative.BlendWithin | jni/cubicpano-jni.cpp:109-126 | the blend of four channels stays within any bounds all four keep |
| CubicNative.BlendBounds | jni/cubicpano-jni.cpp:109-126 | the blend lies between the smallest and largest of the four channels |
| CubicNative.BlendUniform | jni/cubicpano-jni.cpp:109-126 | four equal channels blend to that channel |
| CubicNative.ChannelsOfPixel | jni/cubicpano-jni.cpp:124-128 | the result pixel has alpha 0 and the blended channels |
| CubicNative.BilinearChannels | jni/cubicpano-jni.cpp:82-129 | the interpolated pixel is transparent and each colour channel is the blend of the same channel of the four samples, between that channel's smallest and largest sample |
| CubicNative.MixChannelBounds | jni/cubicpano-jni.cpp:109-128 | a channel of the blend lies between the smallest and largest of the samples' channel |
| CubicNative.BilinearMixes | jni/cubicpano-jni.cpp:124-129 | the packed blend holds the three mixed channels and alpha 0 |
| CubicNative.BilinearPixel | jni/cubicpano-jni.cpp:82-129 | `getBilinearInterpolatedPixel`; see `CubicNative.BilinearChannels` and `CubicNative.BilinearUniform` |
| CubicNative.BilinearUniform | jni/cubicpano-jni.cpp:82-129 | four equal samples interpolate to their colour with alpha 0 |
| CubicNative.ValidateConverts | jni/cubicpano-jni.cpp:256-292 | conversion runs exactly when both bitmaps are readable RGBA_8888, the face is square and both lock |
| CubicNative.PaintExtends | jni/cubicpano-jni.cpp:296-320 | painting one more pixel stores its projection in bounds and keeps the painted prefix |
| CubicNative.PaintKeepsPadding | jni/cubicpano-jni.cpp:296-320 | painting a pixel leaves the row padding as it was |
| CubicNative.CalculateCubeSide | jni/cubicpano-jni.cpp:256-327 | an invalid call leaves the face alone; a valid one paints every face pixel with the projected panorama sample and keeps the padding |
| Pipes.ReadCall | src/org/openpanodroid/ioutils/Pipe.java:81-135 | one `read` call on the pipe state; see `Pipes.ReadCallProperties` |
| Pipes.WriteCall | src/org/openpanodroid/ioutils/Pipe.java:183-241 | one `write` call on the pipe state; see `Pipes.WriteCallProperties` |
| Pipes.Apply | src/org/openpanodroid/ioutils/Pipe.java:81-265 | one pipe operation; see `Pipes.ApplyConserves` |
| Pipes.Replay | src/org/openpanodroid/ioutils/Pipe.java:81-265 | a sequence of pipe operations; see `Pipes.ReplayConserves` and `Pipes.PipeRoundTrip` |
| FlickrHandlers.PhotoInfo | src/org/openpanodroid/flickrapi/FlickrPhotoRequestor.java:58-82 | the record built from a `photo` element's attributes; see `FlickrHandlers.SizeAttrsRoundTrip` |
| FlickrHandlers.SearchStep | src/org/openpanodroid/flickrapi/FlickrPhotoRequestor.java:44-91 | one SAX event of the search handler; see `FlickrHandlers.SearchRunAppends` and `FlickrHandlers.SearchRunKeepsFailure` |
| FlickrHandlers.InfoStep | src/org/openpanodroid/flickrapi/FlickrPhotoInfoRequestor.java:39-72 | one SAX event of the info handler; see `FlickrHandlers.InfoStepFrames` and `FlickrHandlers.TitleTakesFirstChunk` |
| FlickrHandlers.SizeElement | src/org/openpanodroid/flickrapi/FlickrPhotoSizeRequestor.java:46-81 | one `size` element, with the label read from a given attribute |
| FlickrHandlers.SizesStepAsWritten | src/org/openpanodroid/flickrapi/FlickrPhotoSizeRequestor.java:35-82 | the size handler as written, reading the label from `source`; see `FlickrHandlers.AsWrittenNeverRecords` |
| FlickrHandlers.SizesStep | src/org/openpanodroid/flickrapi/FlickrPhotoSizeRequestor.java:35-82 | the size handler reading the label from `label`; see `FlickrHandlers.SizesStepRecords` |
| FlickrImage.UrlBase | src/org/openpanodroid/flickrapi/FlickrImageInfo.java:63-71 | the farm, server, id and secret part of every sized URL; see `FlickrImage.SizedUrlsDistinct` |
| FlickrImage.Suffix | src/org/openpanodroid/flickrapi/FlickrImageInfo.java:74-159 | the suffix of each size class; see `FlickrImage.SuffixInjective` |
| FlickrImage.Decode | src/org/openpanodroid/flickrapi/FlickrImageInfo.java:182-219 | the Parcel constructor on tokens; see `FlickrImage.DecodeWindow` and `FlickrImage.DecodeEncode` |
| FlickrImage.Normalize | src/org/openpanodroid/flickrapi/FlickrImageInfo.java:193-217 | the record with non-positive sizes dropped; see `FlickrImage.NormalizeFixes` |
| FlickrUrls.SearchParams | src/org/openpanodroid/flickrapi/FlickrPhotoRequestor.java:98-171 | the parameters of a search URL; see `FlickrUrls.SearchShaped` and `FlickrUrls.SearchUrlRecoversTags` |
| FlickrUrls.PhotoParams | src/org/openpanodroid/flickrapi/FlickrPhotoInfoRequestor.java:83-86 | the parameters of an info or size URL; see `FlickrUrls.PhotoUrl` |
| FlickrUrls.Render | src/org/openpanodroid/flickrapi/FlickrPhotoRequestor.java:98-171 | the query string of a parameter list; see `FlickrUrls.RenderParse` |
| FlickrUrls.ParseQuery | src/org/openpanodroid/flickrapi/FlickrPhotoRequestor.java:98-171 | the reading of a query string back into pairs; see `FlickrUrls.RenderParse` |
| PanoList.FormatCompatible | src/org/openpanodroid/FlickrPanoListActivity.java:512-518 | the original format is "jpg" in any letter case |
| PanoList.CleanOriginal | src/org/openpanodroid/FlickrPanoListActivity.java:536-555 | the three checks that clear the original image; see `PanoList.CleanOriginalKeepsUsable` |
| PanoList.FilterOne | src/org/openpanodroid/FlickrPanoListActivity.java:520-563 | one record through the filter; see `PanoList.FilterOneAccepts` |
| PanoList.Filter | src/org/openpanodroid/FlickrPanoListActivity.java:520-563 | the filter over a list; see `PanoList.FilterSurvivors` and `PanoList.FilterAppend` |
| PanoList.Decide | src/org/openpanodroid/FlickrPanoListActivity.java:318-350 | whether to search another page; see `PanoList.DecideRetries` |
| PanoList.SearchQuery | src/org/openpanodroid/FlickrPanoListActivity.java:460-483 | the search query for a page; see `PanoList.SearchQueryTags` |
| PanoViewer.CeilExp | src/org/openpanodroid/PanoViewerActivity.java:671-679 | the exponent of the least power of two not below a number; see `PanoViewer.CeilExpIsSmallest` |
| PanoViewer.MaxTextureSize | src/org/openpanodroid/PanoViewerActivity.java:640-649 | the texture size preference or the default; see `PanoViewer.MaxTextureSizeChoice` |
| Cubic.NewCubicPano | src/org/openpanodroid/CubicPano.java:30-57 | the constructor's checks on the six faces; see `Cubic.NewCubicPanoFaces` |
| Cubic.GetFace | src/org/openpanodroid/CubicPano.java:59-86 | the bitmap of one face; see `Cubic.NewCubicPanoFaces` |
| CubicNative.CreateRGBAPixel | jni/cubicpano-jni.cpp:68-70 | the `createRGBAPixel` packing; see `CubicNative.ChannelsRoundTrip` |
| CubicNative.Red | jni/cubicpano-jni.cpp:47-49 | the `RED` macro; see `CubicNative.ChannelsRoundTrip` |
| CubicNative.Green | jni/cubicpano-jni.cpp:47-49 | the `GREEN` macro; see `CubicNative.ChannelsRoundTrip` |
| CubicNative.Blue | jni/cubicpano-jni.cpp:47-49 | the `BLUE` macro; see `CubicNative.ChannelsRoundTrip` |
| CubicNative.Address | jni/cubicpano-jni.cpp:72-80 | the byte address of a pixel; see `CubicNative.PixelsApart` and `CubicNative.RowsApart` |
| CubicNative.PixelAt | jni/cubicpano-jni.cpp:72-80 | the pixel stored at an address; see `CubicNative.StoreThenLoad` |
| CubicNative.Validate | jni/cubicpano-jni.cpp:256-292 | the checks before any pixel is touched; see `CubicNative.ValidateConverts` |
| Common.IntToString | src/org/openpanodroid/flickrapi/FlickrPhotoRequestor.java:138 | Java's decimal text of an `int`; see `Common.ParseIntOfIntToString` |
| Common.ValidUrl | src/org/openpanodroid/flickrapi/FlickrPhotoSizeRequestor.java:50-56 | the scheme test of `new URL`; see `Common.ValidUrlOf` |
| Common.EqualsIgnoreCase | src/org/openpanodroid/flickrapi/FlickrPhotoSizeRequestor.java:60-80 | `equalsIgnoreCase` with null false; see `FlickrHandlers.MatchLabelIgnoresCase` |

## Left out

- Threads, monitors, `wait`/`notify` and `interrupt` are not modelled as
  concurrency. A call that would block returns a "blocked" outcome, and
  an interrupt is a flag that the next wait observes.
- Floating point and trigonometry are not modelled. In the native code the
  projection from a face pixel to panorama coordinates is a parameter
  `project`. The bilinear blend is computed on reals, with C's rounding by
  `+ 0.5` and truncation.
- `Double.toString` and `Float.toString` of the location fields are
  parameters of the model. Their decimal format is not modelled.
- Case folding covers ASCII letters only. Java's full Unicode
  `equalsIgnoreCase` is not modelled.
- The byte layout of `android.os.Parcel` is not modelled. A parcel is a
  sequence of string and integer tokens.
- `PanoList.FilterImageInfos`: the filter works on values and returns the
  kept list. It does not remove from the list in place through the
  iterator, so aliasing of that list is not captured.
- Bitmap decoding (`BitmapFactory`) is a parameter `decode`.
  `createPurgableBitmap` is the identity.
- `GlobalConstants` (`MAX_PANO_IMAGE_WIDTH`, `DEFAULT_MAX_TEXTURE_SIZE`,
  `DEFAULT_FOV_DEG`) is not part of this model, so these values are
  parameters. `getOptimalFaceSize` is a parameter too.
- `PanoViewer.DownloadLoop` does not model the 32-bit overflow of
  `currentLength`: its running totals are unbounded integers.
- `FlickrUrls.BuildSearchUrl` does not URL-encode tags, and neither does
  the source. Tags are proved to round-trip only when they are free of
  `,` and `&`.
- `FlickrViewer.ListedPanoUri`: `getImage1024URL` is taken to be non-null
  for a listed panorama. The list filter guarantees this, and the source
  asserts it.
- `Rest.Requestor.ReceiveBody`: a client cancel arriving during the
  download is an event of the input sequence. It performs `cancelQuery`
  at that point and ends the loop.
- `CubicNative.CalculateCubeSide` does not model `AndroidBitmap_lockPixels`
  / `unlockPixels` bookkeeping or logging. Lock results are inputs. Pixels
  are little-endian 32-bit words.
- `CubicNative.CalculateCubeSide` requires the layout Android guarantees of
  a bitmap it describes (`Laid`). It does not model C `int` overflow in
  `y * stride`.
- The SAX parser, the HTTP connection and the network are not modelled.
  Handlers receive element and text events. The requestor receives the
  response as events and bytes.
- Dialogs, toasts, menus, list adapters, the GL renderer and other UI code
  are not part of this model.
- `PanoViewer.ToPowerOfTwo` requires `number <= 2^30`. Beyond that the Java
  loop never terminates (`PanoViewer.DoublingOverflows`), so no result can
  be promised.
- `PanoList.FilterOne` compares `width` with `2 * height` on unbounded
  integers. Java's 32-bit wrap-around of `2*height` is not modelled: for
  width -2147483648 and height 1073741824 the Java test finds the aspect
  right, the model does not.
- `PanoViewer.CheckDecoded` compares `width` with `2 * height` on unbounded
  integers as well, with the same unmodelled wrap-around. Decoded bitmap
  dimensions are positive and far below 2^30, so the two agree on every
  bitmap Android can decode.
- `PanoViewer.DownloadLoop` does not model the exit through
  `catch (Exception)`: a failed `read` of the download stream, or a
  `Pipe.write` that stored part of a chunk and then threw "Pipe closed."
  because the decoder closed its end.
- `Rest.Requestor.DoRequest` models the corrected behaviour for a query
  cancelled mid-download: no response is sent. The as-written behaviour is
  `Rest.RequestMessagesAsWritten` (see Findings).
- `Pipes.ReadCall` checks `offset + length > buffer.length` on unbounded
  integers. Java's 32-bit wrap of that sum is not modelled: with a 10-byte
  buffer, offset 5 and length 2147483647 the sum wraps negative, Java's
  check passes and the read goes on, where the model reports an index
  error. So does `Pipes.Pipe.Read`, which implements `Pipes.ReadCall`.
- `Pipes.ReadCallProperties` states the index-error condition on the same
  unbounded sum, so it does not cover lengths whose sum with the offset
  passes 2^31 - 1.
- `Pipes.WriteCall` checks `offset + count > buffer.length` on unbounded
  integers, without Java's 32-bit wrap of the sum; so does
  `Pipes.Pipe.Write`, which implements it.
- `Pipes.WriteCallProperties` states the index-error condition on the same
  unbounded sum, so it does not cover counts whose sum with the offset
  passes 2^31 - 1.
- `CubicNative.Validate` compares `width` with `2*height` on unbounded
  integers. The C code compares `uint32_t` values, so `2*height` wraps
  modulo 2^32: a width of 2 and a height of 2^31 + 1 pass the C test but
  not the model's. Only heights of 2^31 or more are affected, and no
  Android `Bitmap` has them. `CubicNative.ValidateConverts` and
  `PanoViewer.CheckDecodedMatchesConverter` state their 2:1 test on the
  same unbounded product.
- `Common.ValidUrl` is only the scheme test of `new URL`. The trimming of
  surrounding blanks, the skipped `url:` prefix and the checks of the
  protocol handlers (a non-numeric port, a `jar:` text without `!/`) are
  not modelled.
- `Common.ValidUrlOf` therefore calls valid some texts `new URL` rejects
  in its handler checks.
- `Common.ParseInt` reads ASCII digits only. `Integer.parseInt` also
  accepts other Unicode decimal digits.
- `Pipes.Pipe.ReadByte` models the corrected one-byte read. The as-written
  behaviour is `Pipes.SignedByteResult` (see Findings).
- `FlickrHandlers.PhotoSizeHandler.StartElement` models the corrected
  label lookup. The as-written behaviour is
  `FlickrHandlers.AsWrittenNeverRecords` (see Findings).

## Findings

| source | as written | input that shows it | evidently intended | confidence | as-written member | corrected member |
|---|---|---|---|---|---|---|
| src/org/openpanodroid/ioutils/Pipe.java:68 | `read()` returns the signed byte `oneByteBuffer[0]` | a pipe holding the single byte 0xFF: `read()` returns -1, the end-of-stream value | return the byte as 0..255 (`& 0xFF`), as `InputStream.read()` requires | high; not executed | Pipes.SignedByteCollidesWithEof | Pipes.UnsignedByteNeverEof |
| src/org/openpanodroid/flickrapi/FlickrPhotoSizeRequestor.java:49 | the size label is read from the `source` attribute, which holds the image URL | `<size label="Large" width="1024" height="512" source="http://farm1.static.flickr.com/2/3_4_b.jpg"/>`: the URL matches no label, so nothing is recorded and `Assert.fail()` is reached | read the label from the `label` attribute | high; not executed | FlickrHandlers.AsWrittenDropsLargeSize | FlickrHandlers.SizesStepRecords |
| src/org/openpanodroid/rest/RESTRequestor.java:119 | after `parseResponse` returns, `notifyClient()` always runs, so a query whose client called `cancelQuery` during the download is answered FAILED; the catch at lines 120-121 means that a client who interrupts the thread is not notified, but a cancelled download returns normally (RESTRequestorBitmap.java:52-53) and never reaches it | a query with a URL, a connection of length 10, and the stream events [ClientCancels]: the messages sent end with a FAILED response for the cancelled query | skip `notifyClient()` when the query was cancelled | medium; not executed | Rest.CancelledQueryAnsweredFailed | Rest.RequestMessagesProperties |
