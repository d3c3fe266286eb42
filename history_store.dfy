/** The session-history store of server.js as its local-file fallback runs it:
    `logs/historic_sessions.json` holds one JSON array of session records,
    read, changed and written back by each handler. The array is the field
    `sessions` of `HistoryFile`; whether the file exists is `present`. */
module HistoryStore {
  import opened Common
  import Sorting

  /** The body a client posts to `/api/chat/salvar-historico`. Dates arrive as
      ISO strings and are normalised to instants; here they are integer
      milliseconds. */
  datatype SaveRequest = SaveRequest(
    sessionId: string,
    userId: Option<string>,
    botId: Option<string>,
    startTime: Option<int>,
    endTime: Option<int>,
    messages: Option<seq<Message>>,
    titulo: Option<string>)

  /** A stored record: the request body plus the server's `loggedAt`. */
  datatype Session = Session(
    sessionId: string,
    userId: Option<string>,
    botId: Option<string>,
    startTime: Option<int>,
    endTime: Option<int>,
    messages: Option<seq<Message>>,
    titulo: Option<string>,
    loggedAt: int)

  /** `{ ...session, loggedAt }`: every field of the body, stamped with the save time. */
  function Stamp(req: SaveRequest, now: int): (s: Session)
    ensures s.sessionId == req.sessionId && s.userId == req.userId && s.botId == req.botId
    ensures s.messages == req.messages && s.titulo == req.titulo
    ensures s.startTime == req.startTime && s.endTime == req.endTime && s.loggedAt == now
  {
    Session(req.sessionId, req.userId, req.botId, req.startTime, req.endTime,
            req.messages, req.titulo, now)
  }

  /** `sessionId` identifies at most one record. */
  predicate Unique(s: seq<Session>) {
    forall i, j :: 0 <= i < j < |s| ==> s[i].sessionId != s[j].sessionId
  }

  /** `sessions.findIndex(s => s.sessionId === id)`: the first match, or -1. */
  function IndexOf(s: seq<Session>, id: string): (r: int)
    ensures -1 <= r < |s|
    ensures r == -1 <==> forall i :: 0 <= i < |s| ==> s[i].sessionId != id
    ensures r >= 0 ==> s[r].sessionId == id && forall j :: 0 <= j < r ==> s[j].sessionId != id
  {
    if s == [] then -1
    else if s[0].sessionId == id then 0
    else
      var k := IndexOf(s[1..], id);
      if k < 0 then -1 else k + 1
  }

  /** `sessions.find(s => s.sessionId === id)`. */
  function Find(s: seq<Session>, id: string): (r: Option<Session>)
    ensures r.None? <==> forall i :: 0 <= i < |s| ==> s[i].sessionId != id
    ensures r.Some? ==> r.value in s && r.value.sessionId == id
    ensures r.Some? ==> exists i :: 0 <= i < |s| && s[i] == r.value && forall j :: 0 <= j < i ==> s[j].sessionId != id
  {
    var i := IndexOf(s, id);
    if i >= 0 then Some(s[i]) else None
  }

  /** The read-modify-write of the save handler: replace the first record with
      the same id in place, else put the new record in front. */
  function Upsert(s: seq<Session>, rec: Session): (r: seq<Session>)
    ensures rec in r
    ensures |r| == if IndexOf(s, rec.sessionId) >= 0 then |s| else |s| + 1
  {
    var i := IndexOf(s, rec.sessionId);
    if i >= 0 then assert s[i := rec][i] == rec; s[i := rec] else [rec] + s
  }

  /** `sessions.filter(s => s.sessionId !== id)`. */
  function RemoveAll(s: seq<Session>, id: string): (r: seq<Session>)
    ensures |r| <= |s|
    ensures forall x :: x in r <==> x in s && x.sessionId != id
  {
    if s == [] then []
    else if s[0].sessionId == id then RemoveAll(s[1..], id)
    else [s[0]] + RemoveAll(s[1..], id)
  }

  /** `session.titulo = titulo` on the object `find` returned. */
  function SetTitle(s: seq<Session>, id: string, titulo: string): (r: seq<Session>)
    ensures |r| == |s|
    ensures forall j :: 0 <= j < |s| ==> r[j].sessionId == s[j].sessionId && r[j].messages == s[j].messages
    ensures IndexOf(s, id) < 0 ==> r == s
  {
    var i := IndexOf(s, id);
    if i >= 0 then s[i := s[i].(titulo := Some(titulo))] else s
  }

  // ---------------------------------------------------------------------
  // Upsert

  /** An existing id is overwritten at its own index; nothing else moves. */
  lemma UpsertReplacesInPlace(s: seq<Session>, rec: Session)
    requires IndexOf(s, rec.sessionId) >= 0
    ensures var i := IndexOf(s, rec.sessionId);
      |Upsert(s, rec)| == |s| && Upsert(s, rec)[i] == rec &&
      forall j :: 0 <= j < |s| && j != i ==> Upsert(s, rec)[j] == s[j]
  {
  }

  /** A new id goes to index 0 and every earlier record shifts by one. */
  lemma UpsertPrependsNew(s: seq<Session>, rec: Session)
    requires forall i :: 0 <= i < |s| ==> s[i].sessionId != rec.sessionId
    ensures |Upsert(s, rec)| == |s| + 1 && Upsert(s, rec)[0] == rec
    ensures forall j :: 0 <= j < |s| ==> Upsert(s, rec)[j + 1] == s[j]
  {
  }

  /** Upsert keeps `sessionId` a key of the file. */
  lemma UpsertKeepsUnique(s: seq<Session>, rec: Session)
    requires Unique(s)
    ensures Unique(Upsert(s, rec))
  {
  }

  /** Save-then-get round trip: the record just saved is what `find` returns,
      whole (a full replace, not a merge of old and new fields). */
  lemma UpsertThenFind(s: seq<Session>, rec: Session)
    ensures Find(Upsert(s, rec), rec.sessionId) == Some(rec)
  {
    var i := IndexOf(s, rec.sessionId);
    var u := Upsert(s, rec);
    if i >= 0 {
      IndexOfAfterUpdate(s, rec.sessionId, rec);
    } else {
      assert IndexOf(u, rec.sessionId) == 0;
    }
  }

  /** Saving one session does not change what `find` returns for another. */
  lemma UpsertKeepsOthers(s: seq<Session>, rec: Session, id: string)
    requires id != rec.sessionId
    ensures Find(Upsert(s, rec), id) == Find(s, id)
  {
    var i := IndexOf(s, rec.sessionId);
    var u := Upsert(s, rec);
    var k := IndexOf(s, id);
    if i < 0 {
      assert u == [rec] + s;
      assert u[1..] == s;
    } else {
      assert u[i].sessionId != id;
      assert forall j :: 0 <= j < |s| && j != i ==> u[j] == s[j];
      if k >= 0 {
        assert k != i;
        assert IndexOf(u, id) == k;
      } else {
        assert IndexOf(u, id) == -1;
      }
    }
  }

  // ---------------------------------------------------------------------
  // Delete

  /** Filtering distributes over concatenation, so the records kept stay in
      their original relative order. */
  lemma {:induction false} RemoveAllAppend(a: seq<Session>, b: seq<Session>, id: string)
    ensures RemoveAll(a + b, id) == RemoveAll(a, id) + RemoveAll(b, id)
  {
    if a == [] {
      assert a + b == b;
    } else {
      assert (a + b)[1..] == a[1..] + b;
      RemoveAllAppend(a[1..], b, id);
    }
  }

  /** The length drops exactly when some record carried the id; otherwise the
      file is returned untouched. */
  lemma {:induction false} RemoveAllShrinks(s: seq<Session>, id: string)
    ensures |RemoveAll(s, id)| < |s| <==> IndexOf(s, id) >= 0
    ensures IndexOf(s, id) < 0 ==> RemoveAll(s, id) == s
  {
    if s != [] {
      var t := RemoveAll(s[1..], id);
      var k := IndexOf(s[1..], id);
      RemoveAllShrinks(s[1..], id);
      if s[0].sessionId == id {
        assert IndexOf(s, id) == 0;
        assert RemoveAll(s, id) == t;
      } else {
        assert RemoveAll(s, id) == [s[0]] + t;
        assert IndexOf(s, id) == if k < 0 then -1 else k + 1;
        if k < 0 {
          assert s == [s[0]] + s[1..];
        }
      }
    }
  }

  /** After a delete no record carries the id, so a later get is not-found. */
  lemma RemoveAllThenFind(s: seq<Session>, id: string)
    ensures Find(RemoveAll(s, id), id) == None
  {
    var r := RemoveAll(s, id);
    if IndexOf(r, id) >= 0 {
      assert r[IndexOf(r, id)] in r;
    }
  }

  /** Deleting keeps `sessionId` a key of the file. */
  lemma {:induction false} RemoveAllKeepsUnique(s: seq<Session>, id: string)
    requires Unique(s)
    ensures Unique(RemoveAll(s, id))
  {
    if s != [] {
      assert Unique(s[1..]);
      RemoveAllKeepsUnique(s[1..], id);
      var t := RemoveAll(s[1..], id);
      if s[0].sessionId != id {
        forall j | 0 <= j < |t| ensures t[j].sessionId != s[0].sessionId {
          assert t[j] in s[1..];
        }
        assert [s[0]] + t == RemoveAll(s, id);
      }
    }
  }

  // ---------------------------------------------------------------------
  // Title update

  /** Only the `titulo` of the first matching record changes. */
  lemma SetTitleChangesOnlyTitle(s: seq<Session>, id: string, titulo: string)
    requires IndexOf(s, id) >= 0
    ensures var i := IndexOf(s, id);
      |SetTitle(s, id, titulo)| == |s| &&
      SetTitle(s, id, titulo)[i] == s[i].(titulo := Some(titulo)) &&
      forall j :: 0 <= j < |s| && j != i ==> SetTitle(s, id, titulo)[j] == s[j]
  {
  }

  /** A later get reflects the new title. */
  lemma SetTitleThenFind(s: seq<Session>, id: string, titulo: string)
    requires IndexOf(s, id) >= 0
    ensures Find(SetTitle(s, id, titulo), id) == Some(s[IndexOf(s, id)].(titulo := Some(titulo)))
  {
    var i := IndexOf(s, id);
    assert SetTitle(s, id, titulo) == s[i := s[i].(titulo := Some(titulo))];
    IndexOfAfterUpdate(s, id, s[i].(titulo := Some(titulo)));
  }

  /** Overwriting the first match with a record of the same id leaves it the
      first match. */
  lemma {:induction false} IndexOfAfterUpdate(s: seq<Session>, id: string, e: Session)
    requires IndexOf(s, id) >= 0 && e.sessionId == id
    ensures IndexOf(s[IndexOf(s, id) := e], id) == IndexOf(s, id)
  {
    var i := IndexOf(s, id);
    var u := s[i := e];
    if i > 0 {
      assert u[0] == s[0];
      assert IndexOf(s[1..], id) == i - 1;
      assert u[1..] == s[1..][i - 1 := e];
      IndexOfAfterUpdate(s[1..], id, e);
    } else {
      assert u[0] == e;
    }
  }

  // ---------------------------------------------------------------------
  // Listing projection

  /** The fields a listing returns per session. The file path builds no
      `titulo` key (server.js:877-888), which is `titulo == None` here. */
  datatype Summary = Summary(
    sessionId: string,
    botId: Option<string>,
    startTime: Option<int>,
    endTime: Option<int>,
    messageCount: nat,
    duration: int,
    loggedAt: int,
    preview: string,
    titulo: Option<string>)

  /** `Math.round(d / 1000)` for integer `d`: JavaScript rounds halves up. */
  function RoundToSeconds(d: int): (r: int)
    ensures 1000 * r - 500 <= d < 1000 * r + 500
  {
    (d + 500) / 1000
  }

  /** Whole seconds between the bounds, or 0 when either is missing. */
  function Duration(start: Option<int>, end: Option<int>): (r: int)
    ensures start.None? || end.None? ==> r == 0
    ensures start.Some? && end.Some? ==>
      1000 * r - 500 <= end.value - start.value < 1000 * r + 500
  {
    if start.Some? && end.Some? then RoundToSeconds(end.value - start.value) else 0
  }

  const PreviewLength: nat := 100
  const Ellipsis: string := "..."
  const NoMessages: string := "Sem mensagens"

  /** `messages[0].parts[0].text.substring(0, 100) + '...'`, or the placeholder
      when there is no message. `None` is the TypeError thrown when the first
      message has no part. */
  function Preview(messages: Option<seq<Message>>): (r: Option<string>)
    ensures r.None? <==> messages.Some? && messages.value != [] && messages.value[0].parts == []
    ensures r.Some? ==> 0 < |r.value| <= PreviewLength + |Ellipsis|
  {
    if messages.None? || |messages.value| == 0 then Some(NoMessages)
    else if |messages.value[0].parts| == 0 then None
    else Some(Prefix(messages.value[0].parts[0].text, PreviewLength) + Ellipsis)
  }

  function MessageCount(messages: Option<seq<Message>>): nat {
    if messages.Some? then |messages.value| else 0
  }

  /** One element of the `sessions.map(...)` of the file path. */
  function Summarize(s: Session): (r: Option<Summary>)
    ensures r.Some? ==> r.value.sessionId == s.sessionId && r.value.titulo.None?
  {
    match Preview(s.messages)
    case None => None
    case Some(p) =>
      Some(Summary(s.sessionId, s.botId, s.startTime, s.endTime, MessageCount(s.messages),
                   Duration(s.startTime, s.endTime), s.loggedAt, p, None))
  }

  /** The summary has the count of messages, the rounded duration, and a
      preview of at most 103 characters taken from the first message. */
  lemma SummaryFields(s: Session)
    requires Summarize(s).Some?
    ensures var r := Summarize(s).value;
      && r.messageCount == (if s.messages.Some? then |s.messages.value| else 0)
      && r.duration == Duration(s.startTime, s.endTime)
      && |r.preview| <= PreviewLength + 3
      && (s.messages.None? || s.messages.value == [] ==> r.preview == NoMessages)
      && (s.messages.Some? && s.messages.value != [] ==>
            var text := s.messages.value[0].parts[0].text;
            r.preview == text[..|r.preview| - 3] + "..." &&
            |r.preview| - 3 == (if |text| < 100 then |text| else 100))
  {
  }

  /** Every record of the slice mapped, or `None` if one of them throws. */
  function SummarizeAll(s: seq<Session>): (r: Option<seq<Summary>>)
    ensures r.Some? <==> forall i :: 0 <= i < |s| ==> Summarize(s[i]).Some?
    ensures r.Some? ==> (|r.value| == |s| &&
      forall i :: 0 <= i < |s| ==> Summarize(s[i]) == Some(r.value[i]))
  {
    if s == [] then Some([])
    else
      match Summarize(s[0])
      case None => None
      case Some(h) =>
        match SummarizeAll(s[1..])
        case None => None
        case Some(t) => Some([h] + t)
  }

  /** `array.slice(0, limit)`: a negative limit counts from the end. */
  function SliceTo<T>(s: seq<T>, limit: int): (r: seq<T>)
    ensures r <= s
    ensures limit >= 0 ==> |r| == if limit < |s| then limit else |s|
    ensures limit < 0 ==> |r| == if |s| + limit > 0 then |s| + limit else 0
  {
    if limit >= 0 then (if limit < |s| then s[..limit] else s)
    else if |s| + limit > 0 then s[..|s| + limit] else []
  }

  /** The date fields `sortBy` may name. */
  datatype SortField = StartTime | EndTime | LoggedAt

  /** `new Date(a[sortBy] || a.loggedAt)`. */
  function SortKey(s: Session, field: SortField): (r: int)
    ensures field == StartTime && s.startTime.Some? ==> r == s.startTime.value
    ensures field == StartTime && s.startTime.None? ==> r == s.loggedAt
    ensures field == EndTime && s.endTime.Some? ==> r == s.endTime.value
    ensures field == EndTime && s.endTime.None? ==> r == s.loggedAt
    ensures field == LoggedAt ==> r == s.loggedAt
  {
    match field
    case StartTime => s.startTime.GetOr(s.loggedAt)
    case EndTime => s.endTime.GetOr(s.loggedAt)
    case LoggedAt => s.loggedAt
  }

  /** The same key read back from a summary, which copies the three dates. */
  function SummaryKey(s: Summary, field: SortField): int {
    match field
    case StartTime => s.startTime.GetOr(s.loggedAt)
    case EndTime => s.endTime.GetOr(s.loggedAt)
    case LoggedAt => s.loggedAt
  }

  /** The query of GET /api/chat/historicos; a missing parameter takes the
      handler's default (`limit = 10, sortBy = 'startTime', order = 'desc'`). */
  datatype ListQuery = ListQuery(limit: Option<int>, sortBy: Option<SortField>, order: Option<string>)
  {
    function Limit(): int { limit.GetOr(DefaultLimit) }
    function Field(): SortField { sortBy.GetOr(StartTime) }
    function Order(): string { order.GetOr("desc") }
  }

  const DefaultLimit: int := 10

  /** `order === 'asc' ? 1 : -1`. */
  function SortOrder(order: string): int {
    if order == "asc" then 1 else -1
  }

  /** Non-increasing in `sign * key`: the order `Array.prototype.sort` gives
      with the comparator `(a, b) => sign * (key(b) - key(a))`. */
  function Rank(field: SortField, sign: int): Session -> int {
    x => sign * SortKey(x, field)
  }

  /** Sort by `sign * key`, slice to `limit`, project each record; a record
      whose first message has no parts throws in the projection (500). */
  function ListBy(s: seq<Session>, limit: int, field: SortField, sign: int): (r: Result<seq<Summary>>)
    ensures r.Err? ==> r.error == InternalError
    ensures r.Ok? ==> |r.value| <= |s|
  {
    match SummarizeAll(SliceTo(Sorting.SortDesc(s, Rank(field, sign)), limit))
    case None => Err(InternalError)
    case Some(r) => Ok(r)
  }

  /** The file path sorts with `sortOrder * (bVal - aVal)`. */
  function ListSessions(s: seq<Session>, limit: int, field: SortField, order: string): (r: Result<seq<Summary>>)
    ensures r.Err? ==> r.error == InternalError
    ensures r.Ok? ==> |r.value| <= |s|
  {
    ListBy(s, limit, field, SortOrder(order))
  }

  /** `r` is the projection of `listed`, records taken from `s` with no
      record taken more often than it is stored. */
  ghost predicate ListedFrom(s: seq<Session>, listed: seq<Session>, r: seq<Summary>) {
    && multiset(listed) <= multiset(s)
    && |listed| == |r|
    && forall i :: 0 <= i < |r| ==> Summarize(listed[i]) == Some(r[i])
  }

  /** No record left out of `listed` ranks above a listed one. */
  ghost predicate TopByRank(s: seq<Session>, listed: seq<Session>, key: Session -> int) {
    forall x, i :: x in multiset(s) - multiset(listed) && 0 <= i < |listed| ==> key(x) <= key(listed[i])
  }

  /** No record left out of `listed` is newer, by `field`, than a listed one. */
  ghost predicate NoneNewerLeftOut(s: seq<Session>, listed: seq<Session>, field: SortField) {
    forall x, i :: x in multiset(s) - multiset(listed) && 0 <= i < |listed| ==>
      SortKey(x, field) <= SortKey(listed[i], field)
  }

  /** No record left out of `listed` is older, by `field`, than a listed one. */
  ghost predicate NoneOlderLeftOut(s: seq<Session>, listed: seq<Session>, field: SortField) {
    forall x, i :: x in multiset(s) - multiset(listed) && 0 <= i < |listed| ==>
      SortKey(x, field) >= SortKey(listed[i], field)
  }

  /** A prefix of the records sorted by `key` holds the top-ranked ones. */
  lemma SortedPrefixIsTop(s: seq<Session>, key: Session -> int, n: nat)
    requires n <= |s|
    ensures var p := Sorting.SortDesc(s, key);
      multiset(p[..n]) <= multiset(s) && TopByRank(s, p[..n], key)
  {
    var p := Sorting.SortDesc(s, key);
    LeftOutIsLater(s, p, n);
    forall x, i | x in multiset(s) - multiset(p[..n]) && 0 <= i < n
      ensures key(x) <= key(p[..n][i])
    {
      var k :| n <= k < |p| && p[k] == x;
      assert p[..n][i] == p[i];
    }
  }

  /** What a prefix of a permutation leaves out sits after the prefix. */
  lemma LeftOutIsLater(s: seq<Session>, p: seq<Session>, n: nat)
    requires multiset(p) == multiset(s) && n <= |p|
    ensures multiset(p[..n]) <= multiset(s)
    ensures forall x :: x in multiset(s) - multiset(p[..n]) ==> exists k :: n <= k < |p| && p[k] == x
  {
    assert p == p[..n] + p[n..];
    forall x | x in multiset(s) - multiset(p[..n])
      ensures exists k :: n <= k < |p| && p[k] == x
    {
      assert x in multiset(p[n..]);
      var j :| 0 <= j < |p[n..]| && p[n..][j] == x;
      assert p[n + j] == x;
    }
  }

  /** Top by `Rank(field, 1)` means no newer record is left out, and top by
      `Rank(field, -1)` that no older one is. */
  lemma RankSign(s: seq<Session>, listed: seq<Session>, field: SortField)
    ensures TopByRank(s, listed, Rank(field, 1)) ==> NoneNewerLeftOut(s, listed, field)
    ensures TopByRank(s, listed, Rank(field, -1)) ==> NoneOlderLeftOut(s, listed, field)
  {
  }

  lemma SummaryKeyAgrees(s: Session, field: SortField)
    requires Summarize(s).Some?
    ensures SummaryKey(Summarize(s).value, field) == SortKey(s, field)
  {
  }

  /** A listing holds the projections of the first `limit` records of the
      file sorted by rank: records of the file, none listed more often than
      it is stored, none left out ranking above a listed one, in rank order. */
  lemma ListByProperties(s: seq<Session>, limit: int, field: SortField, sign: int)
    requires ListBy(s, limit, field, sign).Ok?
    ensures var r := ListBy(s, limit, field, sign).value;
      && (limit >= 0 ==> |r| == if limit < |s| then limit else |s|)
      && |r| <= |s|
      && (exists listed :: ListedFrom(s, listed, r) && TopByRank(s, listed, Rank(field, sign)))
      && (forall i, j :: 0 <= i < j < |r| ==>
            sign * SummaryKey(r[i], field) >= sign * SummaryKey(r[j], field))
  {
    var sorted := Sorting.SortDesc(s, Rank(field, sign));
    var sliced := SliceTo(sorted, limit);
    var r := ListBy(s, limit, field, sign).value;
    assert SummarizeAll(sliced) == Some(r);
    assert sliced == sorted[..|sliced|];
    SortedPrefixIsTop(s, Rank(field, sign), |sliced|);
    assert ListedFrom(s, sliced, r) && TopByRank(s, sliced, Rank(field, sign));
    forall i, j | 0 <= i < j < |r|
      ensures sign * SummaryKey(r[i], field) >= sign * SummaryKey(r[j], field)
    {
      assert sliced[i] == sorted[i] && sliced[j] == sorted[j];
      SummaryKeyAgrees(sliced[i], field);
      SummaryKeyAgrees(sliced[j], field);
    }
  }

  /** What the file path of the listing returns: `limit` summaries (for a
      non-negative limit, fewer only when the file is shorter), each the
      projection of a stored record, with `'asc'` giving the newest records
      newest first and every other order the oldest records oldest first. */
  lemma ListSessionsProperties(s: seq<Session>, limit: int, field: SortField, order: string)
    requires ListSessions(s, limit, field, order).Ok?
    ensures var r := ListSessions(s, limit, field, order).value;
      && (limit >= 0 ==> |r| == if limit < |s| then limit else |s|)
      && (order == "asc" ==>
            && (exists listed :: ListedFrom(s, listed, r) && NoneNewerLeftOut(s, listed, field))
            && forall i, j :: 0 <= i < j < |r| ==> SummaryKey(r[i], field) >= SummaryKey(r[j], field))
      && (order != "asc" ==>
            && (exists listed :: ListedFrom(s, listed, r) && NoneOlderLeftOut(s, listed, field))
            && forall i, j :: 0 <= i < j < |r| ==> SummaryKey(r[i], field) <= SummaryKey(r[j], field))
  {
    var sign := SortOrder(order);
    ListByProperties(s, limit, field, sign);
    var r := ListSessions(s, limit, field, order).value;
    var listed :| ListedFrom(s, listed, r) && TopByRank(s, listed, Rank(field, sign));
    RankSign(s, listed, field);
  }

  // ---------------------------------------------------------------------
  // Finding: the file path inverts the requested order.

  /** With `order=desc` and `limit=1` over two sessions started at 1 s and 2 s,
      the file path returns the OLDER session, where the database path
      (`sort({startTime: -1})`) returns the newer one. */
  lemma DescListsOldestFirst()
    ensures var older := Session("a", None, None, Some(1000), None, None, None, 5000);
      var newer := Session("b", None, None, Some(2000), None, None, None, 5000);
      ListSessions([newer, older], 1, StartTime, "desc") == Ok([Summarize(older).value])
  {
    var older := Session("a", None, None, Some(1000), None, None, None, 5000);
    var newer := Session("b", None, None, Some(2000), None, None, None, 5000);
    assert SortOrder("desc") == -1;
    var key := Rank(StartTime, -1);
    assert Sorting.SortDesc([older], key) == [older];
    assert [newer, older][1..] == [older];
    assert Sorting.InsertDesc(newer, [older], key) == [older, newer];
    assert SliceTo([older, newer], 1) == [older];
    SummarizeOne(older);
  }

  /** The as-written answer on that input breaks the intended promise: what
      it lists cannot be taken from the file without leaving the newer
      session out. */
  lemma AsWrittenMissesNewest()
    ensures var older := Session("a", None, None, Some(1000), None, None, None, 5000);
      var newer := Session("b", None, None, Some(2000), None, None, None, 5000);
      !exists listed :: ListedFrom([newer, older], listed, [Summarize(older).value]) &&
                        NoneNewerLeftOut([newer, older], listed, StartTime)
  {
    var older := Session("a", None, None, Some(1000), None, None, None, 5000);
    var newer := Session("b", None, None, Some(2000), None, None, None, 5000);
    var s := [newer, older];
    var r := [Summarize(older).value];
    forall listed | ListedFrom(s, listed, r) ensures !NoneNewerLeftOut(s, listed, StartTime) {
      assert Summarize(listed[0]) == Some(r[0]);
      assert listed[0] in multiset(listed);
      assert listed[0] in multiset(s);
      assert listed[0] == older;
      assert listed == [older];
      assert newer in multiset(s) - multiset(listed);
      assert SortKey(newer, StartTime) > SortKey(listed[0], StartTime);
    }
  }

  lemma SummarizeOne(x: Session)
    requires Summarize(x).Some?
    ensures SummarizeAll([x]) == Some([Summarize(x).value])
  {
    assert [x][0] == x && [x][1..] == [];
    assert SummarizeAll([]) == Some([]);
    assert [Summarize(x).value] + [] == [Summarize(x).value];
  }

  /** The order the file path evidently means: the database path's
      (`sort({[sortBy]: sortOrder})`), where `'asc'` is oldest first and
      anything else newest first. */
  function ListSessionsIntended(s: seq<Session>, limit: int, field: SortField, order: string): (r: Result<seq<Summary>>)
    ensures r.Err? ==> r.error == InternalError
    ensures r.Ok? ==> |r.value| <= |s|
  {
    ListBy(s, limit, field, -SortOrder(order))
  }

  /** With the intended order, `'desc'` lists the `limit` newest records of
      the file, newest first: no record left out is newer than a listed one. */
  lemma IntendedDescListsNewestFirst(s: seq<Session>, limit: int, field: SortField)
    requires ListSessionsIntended(s, limit, field, "desc").Ok?
    ensures var r := ListSessionsIntended(s, limit, field, "desc").value;
      && (limit >= 0 ==> |r| == if limit < |s| then limit else |s|)
      && (exists listed :: ListedFrom(s, listed, r) && NoneNewerLeftOut(s, listed, field))
      && (forall i, j :: 0 <= i < j < |r| ==> SummaryKey(r[i], field) >= SummaryKey(r[j], field))
  {
    ListSessionsIntendedProperties(s, limit, field, "desc");
  }

  /** The intended listing for any order: `'asc'` the oldest records oldest
      first, anything else the newest records newest first. */
  lemma ListSessionsIntendedProperties(s: seq<Session>, limit: int, field: SortField, order: string)
    requires ListSessionsIntended(s, limit, field, order).Ok?
    ensures var r := ListSessionsIntended(s, limit, field, order).value;
      && (limit >= 0 ==> |r| == if limit < |s| then limit else |s|)
      && (order == "asc" ==>
            && (exists listed :: ListedFrom(s, listed, r) && NoneOlderLeftOut(s, listed, field))
            && forall i, j :: 0 <= i < j < |r| ==> SummaryKey(r[i], field) <= SummaryKey(r[j], field))
      && (order != "asc" ==>
            && (exists listed :: ListedFrom(s, listed, r) && NoneNewerLeftOut(s, listed, field))
            && forall i, j :: 0 <= i < j < |r| ==> SummaryKey(r[i], field) >= SummaryKey(r[j], field))
  {
    var sign := -SortOrder(order);
    ListByProperties(s, limit, field, sign);
    var r := ListSessionsIntended(s, limit, field, order).value;
    var listed :| ListedFrom(s, listed, r) && TopByRank(s, listed, Rank(field, sign));
    RankSign(s, listed, field);
  }

  /** On the input of `DescListsOldestFirst` the intended order returns the
      newer session. */
  lemma IntendedDescListsNewer()
    ensures var older := Session("a", None, None, Some(1000), None, None, None, 5000);
      var newer := Session("b", None, None, Some(2000), None, None, None, 5000);
      ListSessionsIntended([newer, older], 1, StartTime, "desc") == Ok([Summarize(newer).value])
  {
    var older := Session("a", None, None, Some(1000), None, None, None, 5000);
    var newer := Session("b", None, None, Some(2000), None, None, None, 5000);
    assert -SortOrder("desc") == 1;
    var key := Rank(StartTime, 1);
    assert Sorting.SortDesc([older], key) == [older];
    assert [newer, older][1..] == [older];
    assert Sorting.InsertDesc(newer, [older], key) == [newer, older];
    assert SliceTo([newer, older], 1) == [newer];
    SummarizeOne(newer);
    assert ListBy([newer, older], 1, StartTime, 1) == Ok([Summarize(newer).value]);
  }

  // ---------------------------------------------------------------------
  // The file, updated in place by the handlers.

  class HistoryFile {
    var present: bool
    var sessions: seq<Session>

    ghost predicate Valid()
      reads this
    {
      !present ==> sessions == []
    }

    /** No file on disk yet. */
    constructor Empty()
      ensures Valid() && !present && sessions == []
    {
      present := false;
      sessions := [];
    }

    /** A file whose parsed contents are `contents`. */
    constructor Load(contents: seq<Session>)
      ensures Valid() && present && sessions == contents
    {
      present := true;
      sessions := contents;
    }

    /** POST /api/chat/salvar-historico, file path (server.js:162-218). */
    method Save(req: SaveRequest, now: int) returns (r: Outcome)
      requires Valid()
      modifies this
      ensures Valid()
      ensures req.sessionId == "" ==>
        r == Failure(BadRequest) && present == old(present) && sessions == old(sessions)
      ensures req.sessionId != "" ==>
        r == Success && present && sessions == Upsert(old(sessions), Stamp(req, now))
    {
      if req.sessionId == "" {
        return Failure(BadRequest);
      }
      var idx := IndexOf(sessions, req.sessionId);
      var toSave := Stamp(req, now);
      if idx >= 0 {
        sessions := sessions[idx := toSave];
      } else {
        sessions := [toSave] + sessions;
      }
      present := true;
      r := Success;
    }

    /** GET /api/chat/historicos/:sessionId, file path (server.js:946-977).
        The handler logs `session.messages.length` before answering, so a
        record without `messages` throws there and is answered with 500. */
    method Get(id: string) returns (r: Result<Session>)
      requires Valid()
      ensures !present || IndexOf(sessions, id) < 0 ==> r == Err(NotFound)
      ensures present && IndexOf(sessions, id) >= 0 ==>
        var i := IndexOf(sessions, id);
        && (sessions[i].messages.None? ==> r == Err(InternalError))
        && (sessions[i].messages.Some? ==> r == Ok(sessions[i]))
      ensures r.Ok? ==> r.value.sessionId == id && r.value in sessions
    {
      if !present {
        return Err(NotFound);
      }
      var found := Find(sessions, id);
      if found.None? {
        r := Err(NotFound);
      } else if found.value.messages.None? {
        r := Err(InternalError);
      } else {
        r := Ok(found.value);
      }
    }

    /** DELETE /api/chat/historicos/:sessionId, file path (server.js:645-672). */
    method Delete(id: string) returns (r: Outcome)
      requires Valid()
      modifies this
      ensures Valid() && present == old(present)
      ensures sessions == RemoveAll(old(sessions), id)
      ensures r == Success <==> |sessions| < |old(sessions)|
      ensures r.Failure? ==> r.error == NotFound && sessions == old(sessions)
    {
      if present {
        var initialLength := |sessions|;
        var kept := RemoveAll(sessions, id);
        if |kept| < initialLength {
          sessions := kept;
          return Success;
        }
        RemoveAllShrinks(sessions, id);
      }
      r := Failure(NotFound);
    }

    /** PUT /api/chat/historicos/:sessionId/atualizar-titulo, file path
        (server.js:746-748 and 772-798). */
    method UpdateTitle(id: string, titulo: string) returns (r: Outcome)
      requires Valid()
      modifies this
      ensures Valid() && present == old(present)
      ensures titulo == "" ==> r == Failure(BadRequest) && sessions == old(sessions)
      ensures titulo != "" && (!present || IndexOf(old(sessions), id) < 0) ==>
        r == Failure(NotFound) && sessions == old(sessions)
      ensures titulo != "" && present && IndexOf(old(sessions), id) >= 0 ==>
        r == Success && sessions == SetTitle(old(sessions), id, titulo)
    {
      if titulo == "" {
        return Failure(BadRequest);
      }
      if present {
        var idx := IndexOf(sessions, id);
        if idx >= 0 {
          sessions := sessions[idx := sessions[idx].(titulo := Some(titulo))];
          return Success;
        }
      }
      r := Failure(NotFound);
    }

    /** GET /api/chat/historicos, file path (server.js:809 and 858-910), once
        the admin gate has let the request through, with the order corrected
        to the database path's (see `DescListsOldestFirst`); a missing file
        lists nothing. */
    method List(q: ListQuery) returns (r: Result<seq<Summary>>)
      requires Valid()
      ensures !present ==> r == Ok([])
      ensures present ==> r == ListSessionsIntended(sessions, q.Limit(), q.Field(), q.Order())
      ensures r.Ok? && q.Limit() >= 0 ==>
        |r.value| == if q.Limit() < |sessions| then q.Limit() else |sessions|
      ensures r.Ok? && q.Order() != "asc" ==>
        && (exists listed :: ListedFrom(sessions, listed, r.value) && NoneNewerLeftOut(sessions, listed, q.Field()))
        && forall i, j :: 0 <= i < j < |r.value| ==>
             SummaryKey(r.value[i], q.Field()) >= SummaryKey(r.value[j], q.Field())
      ensures r.Ok? && q.Order() == "asc" ==>
        && (exists listed :: ListedFrom(sessions, listed, r.value) && NoneOlderLeftOut(sessions, listed, q.Field()))
        && forall i, j :: 0 <= i < j < |r.value| ==>
             SummaryKey(r.value[i], q.Field()) <= SummaryKey(r.value[j], q.Field())
    {
      if !present {
        assert ListedFrom(sessions, [], []);
        assert NoneNewerLeftOut(sessions, [], q.Field()) && NoneOlderLeftOut(sessions, [], q.Field());
        return Ok([]);
      }
      r := ListSessionsIntended(sessions, q.Limit(), q.Field(), q.Order());
      if r.Ok? {
        ListSessionsIntendedProperties(sessions, q.Limit(), q.Field(), q.Order());
      }
    }
  }

  /** With the corrected order, a request without a query lists the ten
      newest sessions by start time, newest first. */
  lemma DefaultQueryListsTenNewest(s: seq<Session>)
    requires ListSessionsIntended(s, ListQuery(None, None, None).Limit(), ListQuery(None, None, None).Field(),
                                  ListQuery(None, None, None).Order()).Ok?
    ensures var q := ListQuery(None, None, None);
      var r := ListSessionsIntended(s, q.Limit(), q.Field(), q.Order()).value;
      && |r| == (if |s| < 10 then |s| else 10)
      && (exists listed :: ListedFrom(s, listed, r) && NoneNewerLeftOut(s, listed, StartTime))
      && forall i, j :: 0 <= i < j < |r| ==> SummaryKey(r[i], StartTime) >= SummaryKey(r[j], StartTime)
  {
    IntendedDescListsNewestFirst(s, 10, StartTime);
  }

  /** As written, the defaults of server.js:809 ('desc' on `startTime`) go
      through the inverted comparator: a request without a query lists the
      ten oldest sessions, oldest first. */
  lemma DefaultQueryListsTenOldest(s: seq<Session>)
    requires ListSessions(s, ListQuery(None, None, None).Limit(), ListQuery(None, None, None).Field(),
                          ListQuery(None, None, None).Order()).Ok?
    ensures var q := ListQuery(None, None, None);
      var r := ListSessions(s, q.Limit(), q.Field(), q.Order()).value;
      && |r| == (if |s| < 10 then |s| else 10)
      && (exists listed :: ListedFrom(s, listed, r) && NoneOlderLeftOut(s, listed, StartTime))
      && forall i, j :: 0 <= i < j < |r| ==> SummaryKey(r[i], StartTime) <= SummaryKey(r[j], StartTime)
  {
    ListSessionsProperties(s, 10, StartTime, "desc");
  }
}
