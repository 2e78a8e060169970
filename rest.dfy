/** The background request thread of `rest/RESTRequestor.java` together with
    the bitmap download of `rest/RESTRequestorBitmap.java`.

    The thread takes queries from a FIFO queue, one at a time, and sends each
    query's callback handler progress messages followed by exactly one
    FINISHED or FAILED response.  Other threads (the activities) add queries,
    cancel them and terminate the thread; here those calls are methods of the
    same object, and a cancellation that arrives while a download is running
    is an event in the download's input (`ClientCancels`).  Waiting on the
    monitor is an outcome (`WaitingForQuery`) rather than a suspension. */
module Rest {
  import opened Common

  // ---------------------------------------------------------------------------
  // Queries, messages and the queue.

  /** A query object.  `id` stands for the object's identity, which is what
      `LinkedList.remove(Object)` and `query == currentQuery` compare;
      `url` is the `BitmapQuery.url` field, which may be null. */
  datatype Query = Query(id: nat, url: Option<string>)

  /** `RESPONSE_QUERY_FINISHED` or `RESPONSE_QUERY_FAILED`. */
  datatype Kind = Finished | Failed

  /** A message sent to a query's callback handler: `RESPONSE_PROGRESS` with
      the percentage in `arg1`, or a terminal response carrying a
      `RESTResponse(query, result, errorMsg)`. */
  datatype Message<R> =
    | Progress(query: Query, percent: int)
    | Response(kind: Kind, query: Query, result: Option<R>, errorMsg: JString)

  /** The `what` code of a message. */
  function What<R>(m: Message<R>): (w: int)
    ensures w in {1, 2, 3}
    ensures w == 3 <==> m.Progress?
    ensures m.Response? ==> (w == 1 <==> m.kind == Finished)
  {
    match m
    case Progress(_, _) => 3
    case Response(kind, _, _, _) => if kind == Finished then 1 else 2
  }

  /** The position of the first occurrence of `q` in `qs`. */
  function IndexOf(qs: seq<Query>, q: Query): (i: nat)
    requires q in qs
    ensures i < |qs| && qs[i] == q && q !in qs[..i]
  {
    if qs[0] == q then 0 else 1 + IndexOf(qs[1..], q)
  }

  /** `LinkedList.remove(Object)`: drops the first occurrence only. */
  function RemoveFirst(qs: seq<Query>, q: Query): seq<Query>
  {
    if qs == [] then []
    else if qs[0] == q then qs[1..]
    else [qs[0]] + RemoveFirst(qs[1..], q)
  }

  lemma {:induction false} RemoveFirstAbsent(qs: seq<Query>, q: Query)
    requires q !in qs
    ensures RemoveFirst(qs, q) == qs
  {
    if qs != [] {
      assert q !in qs[1..];
      RemoveFirstAbsent(qs[1..], q);
      assert qs == [qs[0]] + qs[1..];
    }
  }

  lemma {:induction false} RemoveFirstAt(qs: seq<Query>, q: Query)
    requires q in qs
    ensures RemoveFirst(qs, q) == qs[..IndexOf(qs, q)] + qs[IndexOf(qs, q) + 1..]
  {
    if qs[0] != q {
      var rest := qs[1..];
      assert q in rest;
      RemoveFirstAt(rest, q);
      var i := IndexOf(rest, q);
      assert IndexOf(qs, q) == i + 1;
      assert qs[..i + 1] == [qs[0]] + rest[..i];
      assert qs[i + 2..] == rest[i + 1..];
    }
  }

  lemma {:induction false} MultisetCut(front: seq<Query>, q: Query, back: seq<Query>)
    ensures multiset(front + back) == multiset(front + [q] + back) - multiset{q}
  {
    assert multiset(front + [q] + back) == multiset(front) + multiset{q} + multiset(back);
  }

  /** Removing a query leaves the queue unchanged when it is absent; otherwise
      exactly its first occurrence goes and the order of the rest is kept. */
  lemma {:induction false} RemoveFirstSpec(qs: seq<Query>, q: Query)
    ensures q !in qs ==> RemoveFirst(qs, q) == qs
    ensures q in qs ==> RemoveFirst(qs, q) == qs[..IndexOf(qs, q)] + qs[IndexOf(qs, q) + 1..]
    ensures q in qs ==> multiset(RemoveFirst(qs, q)) == multiset(qs) - multiset{q}
  {
    if q in qs {
      RemoveFirstAt(qs, q);
      var i := IndexOf(qs, q);
      var front, back := qs[..i], qs[i + 1..];
      assert qs == front + [q] + back;
      MultisetCut(front, q, back);
    } else {
      RemoveFirstAbsent(qs, q);
    }
  }

  /** The queries of the terminal responses in `ms`, in sending order. */
  function TerminalQueries<R>(ms: seq<Message<R>>): seq<Query>
  {
    if ms == [] then []
    else (if ms[0].Response? then [ms[0].query] else []) + TerminalQueries(ms[1..])
  }

  lemma {:induction false} TerminalQueriesAppend<R>(a: seq<Message<R>>, b: seq<Message<R>>)
    ensures TerminalQueries(a + b) == TerminalQueries(a) + TerminalQueries(b)
  {
    if a != [] {
      TerminalQueriesAppend(a[1..], b);
      assert (a + b)[1..] == a[1..] + b;
    } else {
      assert a + b == b;
    }
  }

  lemma {:induction false} TerminalQueriesOfProgress<R>(ms: seq<Message<R>>)
    requires forall k :: 0 <= k < |ms| ==> ms[k].Progress?
    ensures TerminalQueries(ms) == []
  {
    if ms != [] {
      TerminalQueriesOfProgress(ms[1..]);
    }
  }

  // ---------------------------------------------------------------------------
  // Progress percentages.

  const MAX_CHUNK_SIZE: int := 10000

  /** The size of the next read: `MAX_CHUNK_SIZE` or what is left. */
  function ChunkSize(contentLength: int, offset: int): int
  {
    if MAX_CHUNK_SIZE > contentLength - offset then contentLength - offset else MAX_CHUNK_SIZE
  }

  /** `(int) (100.0 * offset / contentLength + 0.5)`: the percentage rounded
      half up.  The double arithmetic is exact enough here for the integer
      form to agree (the quotient is never within 2^-32 of a rounding edge). */
  function RoundedPercent(offset: int, contentLength: int): int
    requires contentLength > 0
  {
    (200 * offset + contentLength) / (2 * contentLength)
  }

  lemma {:induction false} MulLe(d: int, x: int, y: int)
    requires d >= 0 && x <= y
    ensures d * x <= d * y
  {
    assert d * y - d * x == d * (y - x);
  }

  lemma {:induction false} DivMonotone(a: int, b: int, d: int)
    requires a <= b && d > 0
    ensures a / d <= b / d
  {
    if a / d > b / d {
      MulLe(d, b / d + 1, a / d);
      assert false;
    }
  }

  lemma {:induction false} DivUnique(x: int, d: int, q: int)
    requires d > 0 && d * q <= x < d * q + d
    ensures x / d == q
  {
    if x / d > q {
      MulLe(d, q + 1, x / d);
      assert false;
    } else if x / d < q {
      MulLe(d, x / d + 1, q);
      assert false;
    }
  }

  /** The reported percentage stays within 0..100, grows with the offset and
      is 100 once everything has arrived. */
  lemma {:induction false} PercentProperties(o1: int, o2: int, contentLength: int)
    requires contentLength > 0 && 0 <= o1 <= o2 <= contentLength
    ensures 0 <= RoundedPercent(o1, contentLength) <= RoundedPercent(o2, contentLength) <= 100
    ensures RoundedPercent(contentLength, contentLength) == 100
  {
    var d := 2 * contentLength;
    DivMonotone(contentLength, 200 * o1 + contentLength, d);
    DivUnique(contentLength, d, 0);
    DivMonotone(200 * o1 + contentLength, 200 * o2 + contentLength, d);
    DivMonotone(200 * o2 + contentLength, 200 * contentLength + contentLength, d);
    DivUnique(200 * contentLength + contentLength, d, 100);
  }

  // ---------------------------------------------------------------------------
  // The download loop as a function of the stream's replies.

  /** What one iteration of the download loop meets: a read that returns
      bytes, a read that returns -1, a read that throws an IOException with
      the given message, or the client cancelling the running query before
      the next `isCancelled()` check. */
  datatype StreamEvent = Data(bytes: seq<JByte>) | EndOfStream | IoError(msg: JString) | ClientCancels

  /** How the loop of `parseResponse` ends. */
  datatype DownloadEnd = Complete | Cancelled | PrematureEnd | IoFailed(msg: JString)

  /** The end, the bytes received, and the percentage computed after each read. */
  datatype Download = Download(end: DownloadEnd, data: seq<JByte>, percents: seq<int>)

  /** The download loop, from `data` received so far and the cancelled flag.
      After the last event the stream reports end of stream. */
  function DownloadSpec(contentLength: nat, data: seq<JByte>, cancelled: bool, events: seq<StreamEvent>): Download
    requires |data| <= contentLength
    decreases |events|
  {
    if |data| >= contentLength then Download(Complete, data, [])
    else if cancelled then Download(Cancelled, data, [])
    else if events == [] then Download(PrematureEnd, data, [])
    else
      match events[0]
      case ClientCancels => DownloadSpec(contentLength, data, true, events[1..])
      case EndOfStream => Download(PrematureEnd, data, [])
      case IoError(m) => Download(IoFailed(m), data, [])
      case Data(bs) =>
        var data' := data + bs[..Min(|bs|, ChunkSize(contentLength, |data|))];
        var rest := DownloadSpec(contentLength, data', false, events[1..]);
        Download(rest.end, rest.data, [RoundedPercent(|data'|, contentLength)] + rest.percents)
  }

  /** The loop keeps what it has, never overruns the announced length, ends
      complete exactly when all bytes have arrived, and reports percentages in
      0..100 that never decrease and end at 100 on a complete download. */
  lemma {:induction false} DownloadProperties(contentLength: nat, data: seq<JByte>, cancelled: bool, events: seq<StreamEvent>)
    requires |data| <= contentLength
    ensures var d := DownloadSpec(contentLength, data, cancelled, events);
      && |data| <= |d.data| <= contentLength
      && d.data[..|data|] == data
      && (d.end == Complete <==> |d.data| == contentLength)
      && (forall k :: 0 <= k < |d.percents| ==> 0 <= d.percents[k] <= 100)
      && (forall k :: 0 < k < |d.percents| ==> d.percents[k - 1] <= d.percents[k])
      && (d.percents != [] ==> contentLength > 0 && RoundedPercent(|data|, contentLength) <= d.percents[0])
      && (d.end == Complete && d.percents != [] ==> d.percents[|d.percents| - 1] == 100)
      && (d.end == Complete && |data| < contentLength ==> d.percents != [])
    decreases |events|
  {
    var d := DownloadSpec(contentLength, data, cancelled, events);
    if |data| >= contentLength || cancelled || events == [] {
    } else {
      match events[0]
      case ClientCancels =>
        DownloadProperties(contentLength, data, true, events[1..]);
      case EndOfStream =>
      case IoError(m) =>
      case Data(bs) =>
        var data' := data + bs[..Min(|bs|, ChunkSize(contentLength, |data|))];
        DownloadProperties(contentLength, data', false, events[1..]);
        var rest := DownloadSpec(contentLength, data', false, events[1..]);
        PercentProperties(|data|, |data'|, contentLength);
        PercentProperties(|data'|, contentLength, contentLength);
        if rest.percents != [] {
          PercentProperties(|data'|, |data'|, contentLength);
        }
        assert d.data[..|data|] == rest.data[..|data'|][..|data|];
        assert d.percents == [RoundedPercent(|data'|, contentLength)] + rest.percents;
        forall k | 0 < k < |d.percents|
          ensures d.percents[k - 1] <= d.percents[k]
        {
          if k > 1 {
            assert d.percents[k - 1] == rest.percents[k - 2];
          }
        }
    }
  }

  /** The percentages `setProgress` forwards, starting from `last`: only those
      above the highest one so far. */
  function ForwardLast(last: int, ps: seq<int>): int
  {
    if ps == [] then last
    else
      var before := ForwardLast(last, ps[..|ps| - 1]);
      if ps[|ps| - 1] > before then ps[|ps| - 1] else before
  }

  function Forward<R>(q: Query, last: int, ps: seq<int>): seq<Message<R>>
  {
    if ps == [] then []
    else
      var before := ps[..|ps| - 1];
      Forward(q, last, before) + (if ps[|ps| - 1] > ForwardLast(last, before) then [Progress(q, ps[|ps| - 1])] else [])
  }

  /** Progress messages for `q`, with strictly increasing percentages in `(lo, hi]`. */
  predicate ProgressRun<R>(ms: seq<Message<R>>, q: Query, lo: int, hi: int)
  {
    && (forall k :: 0 <= k < |ms| ==> ms[k].Progress? && ms[k].query == q && lo < ms[k].percent <= hi)
    && (forall k :: 0 < k < |ms| ==> ms[k - 1].percent < ms[k].percent)
  }

  /** The forwarded messages are progress messages for `q` with strictly
      increasing percentages above `last`; the new high-water mark is the
      largest of `last` and all computed percentages, and it is the last
      percentage sent whenever it rose. */
  lemma {:induction false} ForwardProperties<R>(q: Query, last: int, ps: seq<int>)
    ensures last <= ForwardLast(last, ps)
    ensures forall k :: 0 <= k < |ps| ==> ps[k] <= ForwardLast(last, ps)
    ensures ForwardLast(last, ps) == last || ForwardLast(last, ps) in ps
    ensures ProgressRun(Forward<R>(q, last, ps), q, last, ForwardLast(last, ps))
    ensures ForwardLast(last, ps) > last ==>
      Forward<R>(q, last, ps) != [] && Forward<R>(q, last, ps)[|Forward<R>(q, last, ps)| - 1] == Progress(q, ForwardLast(last, ps))
  {
    if ps != [] {
      var before := ps[..|ps| - 1];
      ForwardProperties<R>(q, last, before);
      assert ps == before + [ps[|ps| - 1]];
      var rb: seq<Message<R>> := Forward(q, last, before);
      var r: seq<Message<R>> := Forward(q, last, ps);
      if ps[|ps| - 1] > ForwardLast(last, before) {
        assert r == rb + [Progress(q, ps[|ps| - 1])];
        forall k | 0 < k < |r|
          ensures r[k - 1].percent < r[k].percent
        {
          if k == |r| - 1 {
            assert r[k - 1] == rb[k - 1];
          } else {
            assert r[k - 1] == rb[k - 1] && r[k] == rb[k];
          }
        }
      } else {
        assert r == rb;
      }
    }
  }

  /** Appending one percentage forwards it exactly when it beats the high-water mark. */
  lemma {:induction false} ForwardSnoc<R>(q: Query, last: int, ps: seq<int>, x: int)
    ensures ForwardLast(last, ps + [x]) == if x > ForwardLast(last, ps) then x else ForwardLast(last, ps)
    ensures Forward<R>(q, last, ps + [x]) == Forward<R>(q, last, ps) + (if x > ForwardLast(last, ps) then [Progress(q, x)] else [])
  {
    assert (ps + [x])[..|ps|] == ps;
  }

  /** One read of bytes in the download loop, as the loop's invariant needs it. */
  lemma {:induction false} DataStep(contentLength: nat, data: seq<JByte>, events: seq<StreamEvent>, total: seq<int>, done: seq<int>)
    requires |data| < contentLength && events != [] && events[0].Data?
    requires total == done + DownloadSpec(contentLength, data, false, events).percents
    ensures var bs := events[0].bytes;
      var data' := data + bs[..Min(|bs|, ChunkSize(contentLength, |data|))];
      var rest := DownloadSpec(contentLength, data', false, events[1..]);
      && |data'| <= contentLength
      && DownloadSpec(contentLength, data, false, events).end == rest.end
      && DownloadSpec(contentLength, data, false, events).data == rest.data
      && total == (done + [RoundedPercent(|data'|, contentLength)]) + rest.percents
  {
  }

  /** A complete download of a non-empty body ends with a 100 % progress message. */
  lemma {:induction false} CompleteDownloadReportsHundred<R>(q: Query, contentLength: nat, events: seq<StreamEvent>)
    requires contentLength > 0
    requires DownloadSpec(contentLength, [], false, events).end == Complete
    ensures var r: seq<Message<R>> := Forward(q, 0, DownloadSpec(contentLength, [], false, events).percents);
      r != [] && r[|r| - 1] == Progress(q, 100)
  {
    var d := DownloadSpec(contentLength, [], false, events);
    DownloadProperties(contentLength, [], false, events);
    ForwardProperties<R>(q, 0, d.percents);
    assert d.percents[|d.percents| - 1] == 100;
  }

  // ---------------------------------------------------------------------------
  // One request as a function of its inputs.

  /** What the connection does: `openConnection`/`getInputStream` throw with a
      message, or deliver the content length and the stream's replies. */
  datatype Transport = ConnectFailed(msg: JString) | Connected(contentLength: int, events: seq<StreamEvent>)

  /** The message of the NegativeArraySizeException thrown by
      `new byte[contentLength]` for a negative length: the length in decimal. */
  function NegativeSizeMessage(contentLength: int): JString
  {
    JStr(IntToString(contentLength))
  }

  /** The terminal response once the download loop has ended. */
  function Conclude<R>(q: Query, d: Download, decode: seq<JByte> -> Option<R>): Message<R>
  {
    match d.end
    case Complete =>
      if decode(d.data).Some? then Response(Finished, q, decode(d.data), JNull)
      else Response(Failed, q, None, JNull)
    case IoFailed(m) => Response(Failed, q, None, m)
    case _ => Response(Failed, q, None, JNull)
  }

  /** Every message `doRequest` sends for query `q`, as written: the query
      the client cancels while its body arrives is still answered, FAILED. */
  function RequestMessagesAsWritten<R>(q: Query, t: Transport, decode: seq<JByte> -> Option<R>): seq<Message<R>>
  {
    if q.url.None? then [Response(Failed, q, None, JNull)]
    else
      match t
      case ConnectFailed(msg) => [Response(Failed, q, None, msg)]
      case Connected(len, events) =>
        if len < 0 then [Response(Failed, q, None, NegativeSizeMessage(len))]
        else
          var d := DownloadSpec(len, [], false, events);
          Forward(q, 0, d.percents) + [Conclude(q, d, decode)]
  }

  /** Whether the query's response is FINISHED: a URL, a connection, the whole
      body, and a bitmap the decoder accepts. */
  predicate Succeeds<R>(q: Query, t: Transport, decode: seq<JByte> -> Option<R>)
  {
    && q.url.Some? && t.Connected? && t.contentLength >= 0
    && var d := DownloadSpec(t.contentLength, [], false, t.events);
    d.end == Complete && decode(d.data).Some?
  }

  /** Whether the client cancelled the query while its body was arriving. */
  predicate CancelledMidway(q: Query, t: Transport)
  {
    q.url.Some? && t.Connected? && t.contentLength >= 0
    && DownloadSpec(t.contentLength, [], false, t.events).end == Cancelled
  }

  /** As written, each request answers its query exactly once, last, and with
      FINISHED exactly when it succeeds; everything before the answer is
      progress for the same query. */
  lemma {:induction false} RequestMessagesAsWrittenProperties<R>(q: Query, t: Transport, decode: seq<JByte> -> Option<R>)
    ensures var ms := RequestMessagesAsWritten(q, t, decode);
      && TerminalQueries(ms) == [q]
      && ms != [] && ms[|ms| - 1].Response? && ms[|ms| - 1].query == q
      && (ms[|ms| - 1].kind == Finished <==> Succeeds(q, t, decode))
      && (forall k :: 0 <= k < |ms| - 1 ==> ms[k].Progress? && ms[k].query == q)
  {
    var ms := RequestMessagesAsWritten(q, t, decode);
    if q.url.Some? && t.Connected? && t.contentLength >= 0 {
      var d := DownloadSpec(t.contentLength, [], false, t.events);
      var f: seq<Message<R>> := Forward(q, 0, d.percents);
      ForwardProperties<R>(q, 0, d.percents);
      TerminalQueriesOfProgress(f);
      TerminalQueriesAppend(f, [Conclude(q, d, decode)]);
      assert ms == f + [Conclude(q, d, decode)];
    }
  }

  /** As written, a client that cancels its query while the body arrives
      still gets a FAILED response for it, although the client, which
      cancelled, no longer waits for one. */
  lemma {:induction false} CancelledQueryAnsweredFailed<R>(q: Query, t: Transport, decode: seq<JByte> -> Option<R>)
    requires CancelledMidway(q, t)
    ensures var ms := RequestMessagesAsWritten(q, t, decode);
      && TerminalQueries(ms) == [q]
      && ms != [] && ms[|ms| - 1] == Response(Failed, q, None, JNull)
  {
    RequestMessagesAsWrittenProperties(q, t, decode);
  }

  /** Every message `doRequest` sends for query `q`, with the client that
      cancelled its query not notified: the progress of the cancelled
      download, and no response. */
  function RequestMessages<R>(q: Query, t: Transport, decode: seq<JByte> -> Option<R>): seq<Message<R>>
  {
    if CancelledMidway(q, t) then Forward(q, 0, DownloadSpec(t.contentLength, [], false, t.events).percents)
    else RequestMessagesAsWritten(q, t, decode)
  }

  /** Each request answers its query at most once, last, and exactly when the
      client did not cancel it mid-download; the answer is FINISHED exactly
      when the request succeeds, and every other message is progress for
      the same query. */
  lemma {:induction false} RequestMessagesProperties<R>(q: Query, t: Transport, decode: seq<JByte> -> Option<R>)
    ensures var ms := RequestMessages(q, t, decode);
      && TerminalQueries(ms) == (if CancelledMidway(q, t) then [] else [q])
      && (CancelledMidway(q, t) ==> forall k :: 0 <= k < |ms| ==> ms[k].Progress? && ms[k].query == q)
      && (!CancelledMidway(q, t) ==>
            && ms != [] && ms[|ms| - 1].Response? && ms[|ms| - 1].query == q
            && (ms[|ms| - 1].kind == Finished <==> Succeeds(q, t, decode))
            && (forall k :: 0 <= k < |ms| - 1 ==> ms[k].Progress? && ms[k].query == q))
  {
    if CancelledMidway(q, t) {
      var ms: seq<Message<R>> := Forward(q, 0, DownloadSpec(t.contentLength, [], false, t.events).percents);
      ForwardProperties<R>(q, 0, DownloadSpec(t.contentLength, [], false, t.events).percents);
      TerminalQueriesOfProgress(ms);
    } else {
      RequestMessagesAsWrittenProperties(q, t, decode);
    }
  }

  /** The queries answered when the queries `qs` are served with the
      transports `ts`, one each: all but those cancelled mid-download. */
  function Answered(qs: seq<Query>, ts: seq<Transport>): seq<Query>
    requires |qs| == |ts|
  {
    if qs == [] then []
    else
      Answered(qs[..|qs| - 1], ts[..|ts| - 1])
      + (if CancelledMidway(qs[|qs| - 1], ts[|ts| - 1]) then [] else [qs[|qs| - 1]])
  }

  /** With no cancellation, every query served is answered, in order. */
  lemma {:induction false} AnsweredAllUncancelled(qs: seq<Query>, ts: seq<Transport>)
    requires |qs| == |ts|
    requires forall k :: 0 <= k < |qs| ==> !CancelledMidway(qs[k], ts[k])
    ensures Answered(qs, ts) == qs
  {
    if qs != [] {
      AnsweredAllUncancelled(qs[..|qs| - 1], ts[..|ts| - 1]);
      assert qs == qs[..|qs| - 1] + [qs[|qs| - 1]];
    }
  }

  /** The queries answered are among those served, in the same order: a
      served query is answered or was cancelled. */
  lemma {:induction false} AnsweredIsSubsequence(qs: seq<Query>, ts: seq<Transport>)
    requires |qs| == |ts|
    ensures |Answered(qs, ts)| <= |qs|
    ensures forall q :: q in Answered(qs, ts) ==> q in qs
  {
    if qs != [] {
      AnsweredIsSubsequence(qs[..|qs| - 1], ts[..|ts| - 1]);
      assert qs == qs[..|qs| - 1] + [qs[|qs| - 1]];
    }
  }

  datatype Dequeue = Dequeued | DequeueInterrupted | DequeueWaiting

  /** The end of one `doRequest`: a query answered (FINISHED when `finished`),
      the wait for a query interrupted, or the thread waiting for a query. */
  datatype RequestOutcome = Served(query: Query, finished: bool) | InterruptedWhileWaiting | WaitingForQuery

  predicate NoDuplicates(qs: seq<Query>)
  {
    forall i, j :: 0 <= i < j < |qs| ==> qs[i] != qs[j]
  }

  /** Serving the next query of a duplicate-free queue with transport `t`
      extends the answered queries as `Answered` says, and leaves the query
      nowhere in the rest of the queue. */
  lemma {:induction false} ServeNext<R>(q0: seq<Query>, served: nat, used: seq<Transport>, log: seq<Message<R>>, t: Transport, decode: seq<JByte> -> Option<R>)
    requires NoDuplicates(q0) && served < |q0| && |used| == served
    requires TerminalQueries(log) == Answered(q0[..served], used)
    ensures TerminalQueries(log + RequestMessages(q0[served], t, decode)) == Answered(q0[..served + 1], used + [t])
    ensures RemoveFirst(q0[served + 1..], q0[served]) == q0[served + 1..]
  {
    var q := q0[served];
    RequestMessagesProperties(q, t, decode);
    TerminalQueriesAppend(log, RequestMessages(q, t, decode));
    assert q0[..served + 1][..served] == q0[..served];
    assert (used + [t])[..served] == used;
    assert q !in q0[served + 1..] by {
      forall j | served + 1 <= j < |q0|
        ensures q0[j] != q
      {
      }
    }
    RemoveFirstSpec(q0[served + 1..], q);
  }

  /** Appending to a log that starts with `s0` keeps that start and extends
      what follows it. */
  lemma {:induction false} LogExtends<R>(s0: seq<Message<R>>, log: seq<Message<R>>, extra: seq<Message<R>>)
    requires |s0| <= |log| && log[..|s0|] == s0
    ensures (log + extra)[..|s0|] == s0
    ensures (log + extra)[|s0|..] == log[|s0|..] + extra
  {
  }

  // ---------------------------------------------------------------------------
  // The thread object.

  class Requestor<R> {
    var queue: seq<Query>
    var current: Option<Query>
    var result: Option<R>
    var errorMsg: JString
    var success: bool
    var cancelled: bool
    var terminate: bool
    var progress: int
    /** The thread's interrupt status, set by `Thread.interrupt()`. */
    var interrupted: bool
    /** Every message sent to a callback handler, oldest first. */
    var sent: seq<Message<R>>

    constructor ()
      ensures queue == [] && current == None && sent == []
      ensures !terminate && !interrupted && !cancelled && !success && progress == 0
      ensures result == None && errorMsg == JNull
    {
      queue := [];
      current := None;
      result := None;
      errorMsg := JNull;
      success := false;
      cancelled := false;
      terminate := false;
      progress := 0;
      interrupted := false;
      sent := [];
    }

    /** `addQuery` / `enqueueQuery`: the query joins the back of the queue. */
    method AddQuery(q: Query)
      modifies this
      ensures queue == old(queue) + [q]
      ensures current == old(current) && sent == old(sent) && cancelled == old(cancelled)
      ensures interrupted == old(interrupted) && terminate == old(terminate) && progress == old(progress)
      ensures success == old(success) && result == old(result) && errorMsg == old(errorMsg)
    {
      queue := queue + [q];
    }

    /** `cancelQuery`: the query leaves the queue; if it is the running one,
        it is flagged cancelled and the thread is interrupted. */
    method CancelQuery(q: Query)
      modifies this`queue, this`cancelled, this`interrupted
      ensures queue == RemoveFirst(old(queue), q)
      ensures cancelled == (old(cancelled) || old(current) == Some(q))
      ensures interrupted == (old(interrupted) || old(current) == Some(q))
      ensures current == old(current) && sent == old(sent) && terminate == old(terminate)
      ensures progress == old(progress) && success == old(success)
      ensures result == old(result) && errorMsg == old(errorMsg)
    {
      queue := RemoveFirst(queue, q);
      if current == Some(q) {
        cancelled := true;
        interrupted := true;
      }
    }

    /** `terminate`: the run loop stops before its next request. */
    method Terminate()
      modifies this
      ensures terminate && interrupted
      ensures queue == old(queue) && current == old(current) && sent == old(sent) && cancelled == old(cancelled)
      ensures progress == old(progress) && success == old(success) && result == old(result) && errorMsg == old(errorMsg)
    {
      terminate := true;
      interrupted := true;
    }

    /** `setProgress`: only a percentage above the last one reaches the client. */
    method SetProgress(percent: int)
      requires current.Some?
      modifies this`progress, this`sent
      ensures percent > old(progress) ==> progress == percent && sent == old(sent) + [Progress(old(current).value, percent)]
      ensures percent <= old(progress) ==> progress == old(progress) && sent == old(sent)
      ensures queue == old(queue) && current == old(current) && terminate == old(terminate)
      ensures cancelled == old(cancelled) && interrupted == old(interrupted)
      ensures success == old(success) && result == old(result) && errorMsg == old(errorMsg)
    {
      if percent <= progress {
        return;
      }
      progress := percent;
      sent := sent + [Progress(current.value, progress)];
    }

    /** `notifyClient`: FINISHED if the request succeeded, FAILED otherwise,
        with the result and error message gathered so far. */
    method NotifyClient()
      requires current.Some?
      modifies this
      ensures sent == old(sent) + [Response(if old(success) then Finished else Failed, old(current).value, old(result), old(errorMsg))]
      ensures queue == old(queue) && current == old(current) && success == old(success)
      ensures cancelled == old(cancelled) && interrupted == old(interrupted) && terminate == old(terminate)
      ensures progress == old(progress) && result == old(result) && errorMsg == old(errorMsg)
    {
      sent := sent + [Response(if success then Finished else Failed, current.value, result, errorMsg)];
    }

    /** `initQuery` with `dequeueQuery`: the per-request state is reset, then
        the head of the queue becomes the current query.  On an empty queue
        `wait()` either throws InterruptedException at once (clearing the
        interrupt status) or waits. */
    method InitQuery() returns (d: Dequeue)
      modifies this
      ensures !cancelled && !success && result == None && errorMsg == JNull && progress == 0
      ensures old(queue) != [] ==> d == Dequeued && current == Some(old(queue)[0]) && queue == old(queue)[1..] && interrupted == old(interrupted)
      ensures old(queue) == [] ==> queue == [] && current == old(current) && !interrupted
      ensures old(queue) == [] ==> (d == DequeueInterrupted <==> old(interrupted)) && d != Dequeued
      ensures sent == old(sent) && terminate == old(terminate)
    {
      cancelled := false;
      success := false;
      result := None;
      errorMsg := JNull;
      progress := 0;
      if |queue| <= 0 {
        if interrupted {
          interrupted := false;
          return DequeueInterrupted;
        }
        return DequeueWaiting;
      }
      current := Some(queue[0]);
      queue := queue[1..];
      d := Dequeued;
    }

    /** `finishQuery`. */
    method FinishQuery()
      modifies this
      ensures current == None
      ensures queue == old(queue) && sent == old(sent) && terminate == old(terminate) && interrupted == old(interrupted)
      ensures cancelled == old(cancelled) && success == old(success) && progress == old(progress)
      ensures result == old(result) && errorMsg == old(errorMsg)
    {
      current := None;
    }

    /** `RESTRequestorBitmap.parseResponse`: receives the body, then decodes it
        when it arrived whole.  `decode` is `BitmapFactory.decodeByteArray`. */
    method ParseResponse(contentLength: int, events: seq<StreamEvent>, decode: seq<JByte> -> Option<R>)
      requires current.Some? && contentLength >= 0
      modifies this
      ensures var d := DownloadSpec(contentLength, [], old(cancelled), events);
        && sent == old(sent) + Forward(old(current).value, old(progress), d.percents)
        && progress == ForwardLast(old(progress), d.percents)
        && success == (if d.end == Complete then decode(d.data).Some? else if d.end == Cancelled then old(success) else false)
        && result == (if d.end == Complete && decode(d.data).Some? then decode(d.data) else old(result))
        && errorMsg == (if d.end.IoFailed? then d.end.msg else old(errorMsg))
        && cancelled == (old(cancelled) || d.end == Cancelled)
        && interrupted == (old(interrupted) || (d.end == Cancelled && !old(cancelled)))
        && queue == (if d.end == Cancelled && !old(cancelled) then RemoveFirst(old(queue), old(current).value) else old(queue))
      ensures current == old(current) && terminate == old(terminate)
    {
      var buffer, end := ReceiveBody(contentLength, events);
      match end {
        case Cancelled =>
          if !cancelled {
            // the client's `cancelQuery` that arrived while the body was read
            CancelQuery(current.value);
          }
          return;
        case PrematureEnd =>
          success := false;
          return;
        case IoFailed(m) =>
          success := false;
          errorMsg := m;
          return;
        case Complete =>
      }
      var bitmap := decode(buffer[..]);
      if bitmap.None? {
        success := false;
      } else {
        result := bitmap;
        success := true;
      }
    }

    /** The loop of `parseResponse`: reads the body chunk by chunk into a buffer
        of `contentLength` bytes, reporting progress after each read, and stops
        early when the query is cancelled, the stream ends or a read fails. */
    method ReceiveBody(contentLength: int, events: seq<StreamEvent>) returns (buffer: array<JByte>, end: DownloadEnd)
      requires current.Some? && contentLength >= 0
      modifies this`sent, this`progress
      ensures var d := DownloadSpec(contentLength, [], cancelled, events);
        && end == d.end
        && (end == Complete ==> buffer[..] == d.data)
        && sent == old(sent) + Forward(current.value, old(progress), d.percents)
        && progress == ForwardLast(old(progress), d.percents)
      ensures fresh(buffer)
    {
      ghost var q := current.value;
      ghost var d0 := DownloadSpec(contentLength, [], cancelled, events);
      ghost var ps: seq<int> := [];
      ghost var data: seq<JByte> := [];
      var offset := 0;
      buffer := new JByte[contentLength];
      var i := 0;
      while offset < contentLength
        invariant 0 <= offset <= contentLength && 0 <= i <= |events|
        invariant buffer.Length == contentLength && buffer[..offset] == data && |data| == offset
        invariant d0 == DownloadSpec(contentLength, [], cancelled, events) && q == current.value
        invariant var d := DownloadSpec(contentLength, data, cancelled, events[i..]);
          d.end == d0.end && d.data == d0.data && d0.percents == ps + d.percents
        invariant sent == old(sent) + Forward(q, old(progress), ps)
        invariant progress == ForwardLast(old(progress), ps)
        decreases |events| - i
      {
        ghost var cur := DownloadSpec(contentLength, data, cancelled, events[i..]);
        if cancelled {
          assert cur.percents == [] && d0.percents == ps + [] == ps;
          return buffer, Cancelled;
        }
        if i == |events| {
          assert cur.percents == [] && d0.percents == ps + [] == ps;
          return buffer, PrematureEnd;
        }
        var event := events[i];
        assert events[i..][0] == event && events[i..][1..] == events[i + 1..];
        i := i + 1;
        match event {
          case ClientCancels =>
            // the loop's next test of `isCancelled()` returns at once
            ghost var next := DownloadSpec(contentLength, data, true, events[i..]);
            assert cur == next && next.percents == [] && d0.percents == ps + [] == ps;
            return buffer, Cancelled;
          case EndOfStream =>
            assert cur.percents == [] && d0.percents == ps + [] == ps;
            return buffer, PrematureEnd;
          case IoError(m) =>
            assert cur.percents == [] && d0.percents == ps + [] == ps;
            return buffer, IoFailed(m);
          case Data(bs) =>
            DataStep(contentLength, data, events[i - 1..], d0.percents, ps);
            var read, percent := ReceiveChunk(buffer, offset, bs, old(sent), old(progress), ps);
            offset := offset + read;
            ps := ps + [percent];
            data := data + bs[..read];
        }
      }
      ghost var fin := DownloadSpec(contentLength, data, cancelled, events[i..]);
      assert fin.percents == [] && d0.percents == ps + [] == ps;
      assert buffer[..] == data == fin.data == d0.data;
      end := Complete;
    }

    /** One pass of the loop in `parseResponse` that reads: `bs.read(buffer,
        offset, chunkSize)` delivers up to a chunk of `bytes`, and the new
        percentage goes to `setProgress`. `ps` are the percentages reported
        before, starting from `sent0` and `progress0`. */
    method ReceiveChunk(buffer: array<JByte>, offset: int, bytes: seq<JByte>,
                        ghost sent0: seq<Message<R>>, ghost progress0: int, ghost ps: seq<int>)
      returns (read: int, percent: int)
      requires current.Some? && 0 <= offset < buffer.Length
      requires sent == sent0 + Forward(current.value, progress0, ps)
      requires progress == ForwardLast(progress0, ps)
      modifies this`progress, this`sent, buffer
      ensures read == Min(|bytes|, ChunkSize(buffer.Length, offset))
      ensures percent == RoundedPercent(offset + read, buffer.Length)
      ensures buffer[..offset + read] == old(buffer[..offset]) + bytes[..read]
      ensures sent == sent0 + Forward(current.value, progress0, ps + [percent])
      ensures progress == ForwardLast(progress0, ps + [percent])
    {
      var chunkSize := if MAX_CHUNK_SIZE > buffer.Length - offset then buffer.Length - offset else MAX_CHUNK_SIZE;
      read := Min(|bytes|, chunkSize);
      percent := RoundedPercent(offset + read, buffer.Length);
      ForwardSnoc<R>(current.value, progress0, ps, percent);
      Fill(buffer, offset, bytes[..read]);
      SetProgress(percent);
    }

    /** `doRequest`: one request from dequeue to response.  The bitmap
        requestor's `buildRequestURL` is the query's own `url`. */
    method DoRequest(transport: Transport, decode: seq<JByte> -> Option<R>) returns (outcome: RequestOutcome)
      modifies this
      ensures outcome.Served? <==> old(queue) != []
      ensures outcome.Served? ==>
        && outcome.query == old(queue)[0]
        && sent == old(sent) + RequestMessages(outcome.query, transport, decode)
        && (outcome.finished <==> Succeeds(outcome.query, transport, decode))
        && queue == (if CancelledMidway(outcome.query, transport) then RemoveFirst(old(queue)[1..], outcome.query) else old(queue)[1..])
        && interrupted == (old(interrupted) || CancelledMidway(outcome.query, transport))
        && current == None
      ensures outcome.InterruptedWhileWaiting? <==> old(queue) == [] && old(interrupted)
      ensures !outcome.Served? ==> sent == old(sent) && queue == [] && !interrupted
      ensures outcome.InterruptedWhileWaiting? ==> current == None
      ensures terminate == old(terminate)
    {
      var dq := InitQuery();
      if dq == DequeueInterrupted {
        FinishQuery();
        return InterruptedWhileWaiting;
      }
      if dq == DequeueWaiting {
        return WaitingForQuery;
      }
      var q := current.value;
      var url := q.url;
      if url.None? {
        success := false;
        NotifyClient();
        FinishQuery();
        return Served(q, false);
      }
      match transport {
        case ConnectFailed(msg) =>
          success := false;
          errorMsg := msg;
          NotifyClient();
        case Connected(len, events) =>
          if len < 0 {
            success := false;
            errorMsg := NegativeSizeMessage(len);
            NotifyClient();
          } else {
            ParseResponse(len, events, decode);
            if !cancelled {
              NotifyClient();
            }
          }
      }
      outcome := Served(q, success);
      FinishQuery();
    }

    /** `run`: requests until the terminate flag is set.  Each element of
        `transports` is what the network does for the next request; the
        model stops when they run out.  Queries are answered in the order
        they were queued: the terminal responses sent answer the served
        prefix of the queue, but for the queries cancelled mid-download,
        provided no query object is queued twice.  `used` is the transport
        each served query had. */
    method Run(transports: seq<Transport>, decode: seq<JByte> -> Option<R>) returns (served: nat, ghost used: seq<Transport>)
      modifies this
      ensures |old(sent)| <= |sent| && sent[..|old(sent)|] == old(sent)
      ensures old(terminate) ==> sent == old(sent) && served == 0
      ensures |used| == served
      ensures NoDuplicates(old(queue)) ==>
        && served <= |old(queue)| && queue == old(queue)[served..]
        && TerminalQueries(sent[|old(sent)|..]) == Answered(old(queue)[..served], used)
      ensures terminate == old(terminate)
    {
      served := 0;
      used := [];
      var i := 0;
      while !terminate && i < |transports|
        invariant 0 <= i <= |transports| && terminate == old(terminate)
        invariant old(terminate) ==> sent == old(sent) && served == 0
        invariant |old(sent)| <= |sent| && sent[..|old(sent)|] == old(sent)
        invariant |used| == served
        invariant NoDuplicates(old(queue)) ==>
          && served <= |old(queue)| && queue == old(queue)[served..]
          && TerminalQueries(sent[|old(sent)|..]) == Answered(old(queue)[..served], used)
        decreases |transports| - i
      {
        ghost var before := sent;
        ghost var queueBefore := queue;
        var outcome := DoRequest(transports[i], decode);
        if outcome.Served? {
          if NoDuplicates(old(queue)) {
            ServeNext(old(queue), served, used, before[|old(sent)|..], transports[i], decode);
            assert queueBefore[1..] == old(queue)[served + 1..];
          }
          LogExtends(old(sent), before, RequestMessages(outcome.query, transports[i], decode));
          served := served + 1;
          used := used + [transports[i]];
        }
        i := i + 1;
      }
    }
  }

  /** The stream filling `buffer` from `offset` with `bytes`, one byte at a time. */
  method Fill(buffer: array<JByte>, offset: int, bytes: seq<JByte>)
    requires 0 <= offset && offset + |bytes| <= buffer.Length
    modifies buffer
    ensures buffer[..offset + |bytes|] == old(buffer[..offset]) + bytes
    ensures buffer[offset + |bytes|..] == old(buffer[offset + |bytes|..])
  {
    var j := 0;
    while j < |bytes|
      invariant 0 <= j <= |bytes|
      invariant buffer[..offset + j] == old(buffer[..offset]) + bytes[..j]
      invariant buffer[offset + j..] == old(buffer[offset + j..])
    {
      buffer[offset + j] := bytes[j];
      assert buffer[..offset + j + 1] == buffer[..offset + j] + [bytes[j]];
      assert bytes[..j + 1] == bytes[..j] + [bytes[j]];
      j := j + 1;
    }
  }
}
