# Mestre dos Prognósticos chatbot: a Dafny model of its state and handlers

This project models the parts of the betting-tips chatbot ("Mestre dos
Prognósticos") that keep state or make decisions. It covers both the Express
servers and the two browser scripts that consume them:

- **Session-history store** (`HistoryStore`, history_store.dfy). This is the
  local-file fallback of `server.js`: the records of
  `logs/historic_sessions.json` are a field that the save, get, delete,
  title-update and list handlers read and reassign. Pure functions
  describe each change: upsert, filter, title update, and the listing
  projection with its sort and `slice`.
- **Admin gate** (`AdminAuth`, admin_auth.dfy). This covers `requireAdminAuth`,
  the HS256 token of `signAdminToken`/`verifyAdminToken`, and the login that
  mints tokens. HMAC, base64url and JSON are kept abstract as functions.
- **Bot ranking** (`Ranking`, ranking.dfy). This is the in-memory
  `dadosRankingVitrine` table. Each registration increments a bot's count or
  appends a new bot, then re-sorts the table by count.
- **Chat transcripts** (`ChatMemory`, chat_memory.dfy). This is the in-memory
  `chatHistories` map, in both handler versions: `server_novo.js` sends the
  transcript as history, and `server.js` validates input and records a
  fallback reply.
- **Chat page state** (`ClientChat`, client_chat.dfy). This covers
  `chatHistory`/`messageCount`, the session id and the waiting flag of
  `public/app.js`, the save payload, and `String.prototype.trim`.
- **List views** (`AllHistory`, all_history.dfy, and `DurationFormat`,
  duration_format.dfy). These are the history cards of `public/app.js` and
  `public/all-history.js`, with their title and preview fallbacks and
  `formatDuration`.

`Sorting` (sorting.dfy) is the stable insertion sort that stands for
`Array.prototype.sort` with a numeric comparator. `Common` (common.dfy) holds
the shared message and error types.

Modelling conventions:

- Times are integer milliseconds.
- A falsy JavaScript value (`undefined`, `null`, `""`) is `None` or the
  empty string.
- HTTP statuses are the `HttpError` constructors.
- Network answers, the AI model's reply and the clock are parameters.

Where the code disagrees with its own comments, its UI texts or what its
callers expect, the code is followed:

- The save handler accepts a record whose `messages` is empty or missing. Only
  `sessionId` is required (server.js:166).
- The file is not capped at 100 entries. Every save is an unbounded
  `findIndex`/`unshift` (server.js:203-209).
- The file path of the listing sorts in the inverse of the requested order
  (see Findings). `HistoryFile.List` uses the corrected order, and
  `ListSessions` is the code as written.

## Model

| member | source | states |
|---|---|---|
| Common.Prefix | public/all-history.js:22 | `substring(0, n)`: a prefix of at most `n` characters, the whole string when shorter, exactly `n` otherwise |
| Sorting.InsertDesc | server_novo.js:254 | inserting into a list sorted by a descending key keeps it sorted and adds exactly the element (as a multiset) |
| Sorting.SortDesc | server_novo.js:254 | `sort((a, b) => key(b) - key(a))` returns a permutation of its input that is non-increasing in the key |
| Sorting.SortSortedIsIdentity | server_novo.js:272 | sorting a list that is already in order returns it unchanged |
| HistoryStore.Stamp | server.js:204 | `{ ...session, loggedAt }` keeps every field of the body (id, user, bot, times, messages, title) and sets `loggedAt` to the save time |
| HistoryStore.IndexOf | server.js:203 | `findIndex` on `sessionId`: -1 iff no record has the id, else the first index that has it |
| HistoryStore.Find | server.js:953 | `find` on `sessionId`: nothing iff no record has the id, else the first stored record with that id |
| HistoryStore.Upsert | server.js:203-209 | the saved record is in the file afterwards; the file keeps its length when the id was there and grows by one otherwise |
| HistoryStore.SetTitle | server.js:779-782 | the update keeps the file's length and every record's id and messages, and changes nothing when the id is absent |
| HistoryStore.RemoveAll | server.js:654 | `filter` keeps exactly the records whose id differs and never grows the array |
| HistoryStore.UpsertReplacesInPlace | server.js:203-206 | saving an existing id overwrites that record at its own index and leaves every other index alone |
| HistoryStore.UpsertPrependsNew | server.js:207-208 | saving a new id puts the record at index 0 and shifts the rest by one |
| HistoryStore.UpsertKeepsUnique | server.js:203-209 | a save keeps `sessionId` a key of the file |
| HistoryStore.UpsertThenFind | server.js:203-209 | save-then-get round trip: the record just saved is exactly what `find` returns for its id |
| HistoryStore.UpsertKeepsOthers | server.js:203-209 | saving one session does not change what `find` returns for any other id |
| HistoryStore.RemoveAllAppend | server.js:654 | filtering distributes over concatenation, so the kept records keep their relative order |
| HistoryStore.RemoveAllShrinks | server.js:654-656 | the array shrinks iff some record carried the id; otherwise it is returned unchanged |
| HistoryStore.RemoveAllThenFind | server.js:654 | after a delete no record carries the id |
| HistoryStore.RemoveAllKeepsUnique | server.js:654 | a delete keeps `sessionId` a key of the file |
| HistoryStore.SetTitleChangesOnlyTitle | server.js:779-782 | the title update changes only `titulo` of the first matching record |
| HistoryStore.SetTitleThenFind | server.js:779-782 | a later `find` returns the record with the new title |
| HistoryStore.RoundToSeconds | server.js:884 | `Math.round(d / 1000)` is the integer `r` with `1000r - 500 <= d < 1000r + 500` |
| HistoryStore.Duration | server.js:883-884 | the duration is 0 when either bound is missing, else the rounded whole seconds between them |
| HistoryStore.Summarize | server.js:877-888 | a summary keeps the record's id and carries no `titulo` |
| HistoryStore.Preview | server.js:886-887 | the preview fails (the handler's 500) iff the first message has no parts; otherwise it is non-empty and at most 100 characters plus "..." |
| HistoryStore.SummaryFields | server.js:881-887 | `messageCount` is the length of `messages`; the preview is "Sem mensagens" or the first text cut to 100 characters plus "..." |
| HistoryStore.SummarizeAll | server.js:877 | the `map` succeeds iff every record can be summarised, and then maps each index to its record's summary |
| HistoryStore.SliceTo | server.js:874 | `slice(0, limit)` is a prefix of length `min(limit, n)`, or `n + limit` when `limit` is negative |
| HistoryStore.SortKey | server.js:869-870 | the date key is the requested field (start, end or `loggedAt`) when set, else `loggedAt` |
| HistoryStore.SummaryKeyAgrees | server.js:869-870 | a summary sorts under the same date key as its record, including the `loggedAt` fallback |
| HistoryStore.SortedPrefixIsTop | server.js:866-874 | the first `n` records of the sorted file are a sub-multiset of the file, and no record left out ranks above a listed one |
| HistoryStore.ListSessions | server.js:866-888 | as written: the listing fails only with a 500 and never lists more records than the file holds |
| HistoryStore.ListByProperties | server.js:866-888 | a listing has exactly `min(limit, n)` entries; they are the summaries of stored records (no record listed more often than stored) that are the top `limit` by the signed date key, and they come in that order |
| HistoryStore.ListSessionsProperties | server.js:866-874 | as written: exactly `min(limit, n)` entries taken from the file; 'asc' lists the newest records, newest first, and every other order lists the oldest, oldest first |
| HistoryStore.DescListsOldestFirst | server.js:866-874 | as written: on two sessions, `order=desc&limit=1` returns the older one |
| HistoryStore.AsWrittenMissesNewest | server.js:866-874 | as written: on that input, no choice of listed records from the file makes the answer leave out nothing newer than what it lists |
| HistoryStore.ListSessionsIntended | server.js:817-826 | corrected: the listing fails only with a 500 and never lists more records than the file holds |
| HistoryStore.IntendedDescListsNewestFirst | server.js:817-826 | corrected: 'desc' gives exactly `min(limit, n)` summaries of stored records, no record left out newer than a listed one, newest first, like the database path |
| HistoryStore.ListSessionsIntendedProperties | server.js:817-826 | corrected: exactly `min(limit, n)` entries from the file; 'asc' lists the oldest, oldest first, and any other order the newest, newest first |
| HistoryStore.IntendedDescListsNewer | server.js:817-826 | corrected: on the finding's input the newer session is returned |
| HistoryStore.HistoryFile.Empty | server.js:192-194 | no file yet: not present, no records |
| HistoryStore.HistoryFile.Load | server.js:192-194 | an existing file: present, with its parsed records |
| HistoryStore.HistoryFile.Save | server.js:162-218 | an empty `sessionId` is a 400 with nothing changed; otherwise the file exists and holds the upsert of the stamped record |
| HistoryStore.HistoryFile.Get | server.js:946-977 | 404 without a file or a match; 500 when the match has no `messages`; otherwise the first record with the id |
| HistoryStore.HistoryFile.Delete | server.js:645-672 | the file becomes the filtered array; success iff it shrank; otherwise 404 with nothing changed |
| HistoryStore.HistoryFile.UpdateTitle | server.js:741-804 | an empty title is a 400; a missing file or id is a 404; otherwise only the first match's title changes |
| HistoryStore.HistoryFile.List | server.js:809-910 | corrected: once the admin gate lets the request through, the query defaults to `limit=10`, `sortBy=startTime`, `order=desc`; a missing file lists nothing; otherwise exactly `min(limit, n)` summaries of stored records, the newest (or for 'asc' the oldest) with none left out that ranks above them, in that order |
| HistoryStore.DefaultQueryListsTenNewest | server.js:809 | corrected: a query without parameters lists the ten newest sessions by start time (fewer when the file is smaller), newest first |
| HistoryStore.DefaultQueryListsTenOldest | server.js:809-874 | as written: a query without parameters lists the ten oldest sessions by start time (fewer when the file is smaller), oldest first |
| AdminAuth.Split | server.js:348 | `split('.')` yields at least one segment and no segment contains the separator |
| AdminAuth.JoinSplit | server.js:348 | joining the segments with the separator gives back the token |
| AdminAuth.SplitConcat | server.js:348 | a separator between two strings splits them apart cleanly |
| AdminAuth.SplitNoSeparator | server.js:348 | a string without the separator is one segment |
| AdminAuth.SplitThree | server.js:344 | `header.body.sig` splits into exactly those three segments |
| AdminAuth.Sign | server.js:337-344 | when no segment holds a '.', the token splits into exactly the header, the encoded claims with `exp`, and the MAC of the first two |
| AdminAuth.ClaimsWithExp | server.js:339-340 | `{ ...payload, exp }` sets `exp` to the current second plus the lifetime and keeps every other claim |
| AdminAuth.Verify | server.js:346-359 | a token is accepted only with three non-empty segments, a matching MAC, a decodable body and a numeric `exp` not in the past |
| AdminAuth.SignThenVerify | server.js:337-359 | round trip: a signed token verifies under the same secret, with its claims, iff the current second is at most `exp` |
| AdminAuth.ForgedTokenRejected | server.js:350-352 | a token whose signature is not the MAC of its first two segments is refused |
| AdminAuth.OldTokenRejectedAfterRotation | server.js:350-352 | a token signed under an old secret is refused under a new one |
| AdminAuth.ExtraSegmentsIgnored | server.js:348 | segments after the third do not affect verification |
| AdminAuth.MissingSegmentRejected | server.js:349 | fewer than three segments, or an empty one, is refused |
| AdminAuth.Authorize | server.js:262-284 | a grant needs a configured secret; a password grant means the header is the secret and not a "Bearer " header; a token grant carries exactly the claims the token verifies to |
| AdminAuth.GateFailsClosed | server.js:265-266 | with no admin secret configured every request is denied |
| AdminAuth.GateBearerPath | server.js:269-275 | a "Bearer " header is granted iff the token verifies, and never as a password |
| AdminAuth.GateRawPath | server.js:276-280 | any other header is granted iff it equals the secret, as a password grant |
| AdminAuth.GateNoHeader | server.js:263 | a missing header is denied once a secret exists |
| AdminAuth.GateOldPasswordRejected | server.js:276 | a previous secret does not pass as the password |
| AdminAuth.AdminLogin | server.js:287-299 | login succeeds iff a secret is configured and the password equals it, else 403; the token it returns verifies at once to `iat` plus a one-hour `exp` |
| AdminAuth.PageRequestDenied | public/app.js:605 | as written: a request without an Authorization header, as every history request of the pages is, is refused whether or not a secret is configured |
| AdminAuth.BearerHeader | server.js:269-270 | the header starts with "Bearer " and the rest is exactly the token the gate verifies |
| AdminAuth.LoginThenAuthorize | server.js:287-299 | corrected request: the right password yields a token that, sent as a "Bearer " header, opens the gate for exactly one hour |
| Ranking.IndexOfBot | server_novo.js:237 | `find` on `botId`: -1 iff absent, else the first matching index |
| Ranking.Bumped | server_novo.js:236-252 | a known bot's entry keeps its position and name with count plus one and the new access time; an unknown bot is appended with count 1; every other entry is unchanged |
| Ranking.Registered | server_novo.js:236-254 | the registered table is the bumped table re-ordered (same multiset) and is sorted by count |
| Ranking.SumSort | server_novo.js:254 | sorting leaves the total of counts unchanged |
| Ranking.SortKeepsDistinct | server_novo.js:254 | sorting keeps bot ids distinct |
| Ranking.RegisteredWellOrdered | server_novo.js:236-254 | after a registration the table is sorted by count, ids are distinct, counts are positive, and the total count rose by exactly one |
| Ranking.RegisterExistingBot | server_novo.js:239-242 | a known bot's count rises by one and its last access is updated; its name is kept and no entry is added |
| Ranking.RegisterNewBot | server_novo.js:243-250 | a new bot gets one entry with count 1 |
| Ranking.RegisterKeepsOtherBots | server_novo.js:236-254 | every other bot's entry is unchanged |
| Ranking.RankingTable.constructor | server_novo.js:58 | the table starts empty |
| Ranking.RankingTable.Register | server_novo.js:228-266 | a missing id or name is a 400 with nothing changed; otherwise the table becomes the registered, re-sorted table with the total count one higher |
| Ranking.RankingTable.View | server_novo.js:269-278 | the sorted copy equals the stored table, which is already in order |
| ChatMemory.Exchange | server_novo.js:129-130 | the two pushed turns are the user's message and then the model's reply |
| ChatMemory.AlternatingExchange | server_novo.js:129-130 | appending an exchange keeps a transcript alternating user/model and leaves earlier turns in place |
| ChatMemory.UserMessages | server_novo.js:129-130 | the user turns of an alternating transcript, one per exchange |
| ChatMemory.UserMessagesOfExchange | server_novo.js:129-130 | an exchange appends exactly its message to the user turns |
| ChatMemory.TranscriptRecordsMessages | server_novo.js:99-130 | after a run of replied turns the transcript holds every message sent, in order |
| ChatMemory.Conversation | server_novo.js:129-130 | a run of exchanges holds two turns per message: turn `2k` is the `k`-th message as a user turn and turn `2k+1` its reply as a model turn |
| ChatMemory.Instruction | server.js:104-107 | the result is either the generated or the stored instruction; a non-empty stored one wins; it is non-empty whenever the generated one is |
| ChatMemory.ChatMemory.Transcript | server_novo.js:99-102 | a session without a transcript reads as empty |
| ChatMemory.ChatMemory.constructor | server_novo.js:55 | no transcripts at start-up |
| ChatMemory.ChatMemory.Chat | server_novo.js:92-140 | the old transcript is sent as context with the prompt; a reply appends the exchange; a failure is a 500 that leaves the session with its transcript (created empty if new) |
| ChatMemory.ChatMemory.ChatWithFallback | server.js:90-151 | 400 without message or id; 503 without the AI client; otherwise the reply, or the fixed fallback when the call throws, is appended and returned |
| ChatMemory.ChatMemory.Clear | server_novo.js:143-147 | the session's transcript is dropped and no other changes |
| ChatMemory.ChatMemory.ClearChecked | server.js:154-159 | an empty id is a 400; otherwise the session's transcript is dropped |
| DurationFormat.NatToString | public/app.js:86 | the decimal text of a number is non-empty and all digits |
| DurationFormat.IntToString | public/app.js:86 | the text starts with "-" iff the number is negative, and the rest is all digits |
| DurationFormat.ParseIntToString | public/app.js:86 | round trip: every integer, negative ones included, reads back from its text |
| DurationFormat.ParseNatToString | public/app.js:86 | reading the decimal text back gives the number |
| DurationFormat.JsRem | public/app.js:84 | `%` truncates: a result in `[0, b)` for `a >= 0` and in `(-b, 0]` otherwise |
| DurationFormat.FormatDuration | public/app.js:81-92 | the text ends in "s"; a missing or zero duration is "0s"; a minutes part "m" appears iff the duration is at least 60 |
| DurationFormat.MinutesAndSeconds | public/all-history.js:36-45 | at least a minute prints as "Xm Ys" with `60X + Y` equal to the input and `Y < 60` |
| DurationFormat.SecondsOnly | public/all-history.js:36-45 | under a minute prints only the seconds |
| DurationFormat.FormatThenParse | public/all-history.js:36-45 | every non-negative duration can be read back from its text |
| DurationFormat.FormatIsInjective | public/all-history.js:36-45 | two different non-negative durations never print the same |
| DurationFormat.MissingIsZero | public/app.js:82 | a missing duration prints like zero, "0s" |
| DurationFormat.NegativeDropsMinutes | public/app.js:81-92 | a negative duration prints only its truncated remainder |
| DurationFormat.NegativeMinuteLost | public/app.js:81-92 | -65 s and -5 s both print "-5s" |
| ClientChat.LeadingBlanks | public/app.js:382 | counts the whitespace run that opens a string: all of it whitespace, and the next character not |
| ClientChat.TrailingBlanks | public/app.js:382 | counts the whitespace run that closes a string: all of it whitespace, and the character before it not |
| ClientChat.TrimStart | public/app.js:382 | leading whitespace, and only it, is removed |
| ClientChat.TrimEnd | public/app.js:382 | trailing whitespace, and only it, is removed |
| ClientChat.Trim | public/app.js:382 | `trim()` never lengthens; a non-empty result neither starts nor ends with whitespace; it is empty iff the input is all whitespace |
| ClientChat.TrimCutsBlankEnds | public/app.js:382 | trimming returns a contiguous piece of the input whose cut ends are all whitespace and whose own ends are not; stated for any character class, `Trim` being the ECMAScript whitespace one |
| ClientChat.TrimEmptyIffBlank | public/app.js:382-383 | a message is ignored iff it is all whitespace |
| ClientChat.TrimIdempotent | public/app.js:382 | trimming twice is trimming once |
| ClientChat.SessionPayload | public/app.js:178-194 | nothing is posted for an empty transcript; otherwise the body carries the session id, no user, the bot id, start, now and the whole transcript |
| ClientChat.PayloadStoredWhole | public/app.js:187-194 | after the server's upsert, the record under the page's id holds the page's transcript and can be summarised with its message count |
| ClientChat.HttpFailure | public/app.js:312 | the error message starts with "HTTP ", ends with " - " and the body, and the status reads back from the digits between |
| ClientChat.ChatClient.constructor | public/app.js:94-101 | at load the id is `Date.now()` in decimal, nothing is recorded and the page is not waiting |
| ClientChat.ChatClient.AddToHistory | public/app.js:228-239 | one timestamped single-part turn is appended and the counter rises by one |
| ClientChat.ChatClient.SaveSession | public/app.js:178-225 | the body posted is the session payload, and the page state is untouched |
| ClientChat.ChatClient.SendMessage | public/app.js:290-335 | the user turn, then the reply or "Erro: " plus the error, is appended; a save is posted only after a reply; the flag is cleared |
| ClientChat.ChatClient.ClearChat | public/app.js:338-378 | a non-empty transcript is saved first; if the clear request fails nothing changes, else a new id and start time and a transcript holding only the greeting |
| ClientChat.ChatClient.HandleUserMessage | public/app.js:381-393 | nothing is sent while waiting or for a blank input; otherwise the trimmed text is sent and the flag is raised |
| AllHistory.FallbackTitle | public/all-history.js:22 | starts with "Conversa ", ends with "...", and between them holds the id's first `min(8, |id|)` characters |
| AllHistory.DisplayTitle | public/all-history.js:22 | a non-empty title is shown as is, else the fallback title |
| AllHistory.DisplayPreview | public/all-history.js:25 | a non-empty preview is shown as is, else "Sem prévia disponível" |
| AllHistory.CardOf | public/all-history.js:18-31 | a card keeps the summary's id and count and the selection flag; its title and preview are never blank and its duration text ends in "s" |
| AllHistory.RenderAll | public/all-history.js:8-34 | an empty list is the placeholder; otherwise one card per summary, in order, with title, preview, count and formatted duration |
| AllHistory.RenderPanel | public/app.js:50-79 | `renderizarListaHistorico` (refresh button, after a title or delete action): the same cards, the open session's card marked selected and no other |
| AllHistory.RenderHistoryList | public/app.js:625-666 | `renderHistoryList` (history button): "Nenhum histórico encontrado" iff the list is empty; otherwise one card per summary with the preview as it came, no fallback |
| AllHistory.HistoryListMatchesPanel | public/app.js:625-666 | the two panel renderers give the same card exactly when its preview is non-empty, and different placeholders for an empty list |
| AllHistory.PanelMatchesAllHistory | public/app.js:50-79 | both views show the same cards apart from the selection mark |
| AllHistory.ListedTitleIsFallback | server.js:877-888 | a listed session always shows its fallback title, because the listing carries no `titulo` |
| AllHistory.ListedPreviewShownAsIs | server.js:886-887 | a listed preview is never empty, so "Sem prévia disponível" never shows |

## Left out

- The MongoDB and Mongoose paths of every handler. Only the local-file
  fallback of the history store is modelled; the database order appears only
  as the corrected listing order.
- File-system errors and JSON parsing are left out. A failed write (500), an
  unreadable file read as `[]` by the save handler, and a file holding
  something other than an array are not modelled; a present file is its
  parsed records.
- HMAC-SHA256, base64url and JSON are abstract functions. `WellFormed` states
  only what the token logic needs: no '.' in any segment, and decode undoes
  encode. A claim value (`Json`) is a number, string, boolean or null: nested
  objects and arrays in a payload are not modelled. Fractional `exp` values
  and a failing `getAdminSecretFromConfig` (500) are not modelled.
- Concurrency is not modelled. Each handler runs to completion alone, so two
  interleaved requests for the same session or the same file are outside the
  model.
- The weather lookup, the system-instruction text and the AI call are
  parameters. `generateContent`'s response-shape probing (server.js:120-130)
  is reduced to the reply text, and a failure of `getGenerativeModel` before
  the transcript is created in server_novo.js is not separated from a failure
  of `sendMessage`.
- `sortBy` on a field that is not one of the three dates, and dates that parse
  to `NaN`, are not modelled. `parseInt(limit)` is an integer, so a
  non-numeric limit is not modelled either.
- The title-suggestion endpoint, the admin setup and exists endpoints, the
  connection log, the user-info lookup and the page's DOM updates are not
  modelled. The clock time shown on a card depends on the browser locale and
  is left out.
- Sorting.SortDesc: ties keep their input order. This follows from the
  insertion, but no contract states it.
- ChatMemory.ChatMemory.Chat: `sessionId` is a string. `undefined`, which the
  unchecked server_novo.js handler would use as a key, is not distinguished
  from other ids.
- ClientChat.ChatClient.ClearChat: the three `Date.now()` readings (the save's
  `endTime` at public/app.js:192, the new id at :355 and the new
  `sessionStartTime` at :357) are one parameter `now`. The random id suffix
  is a parameter.
- Common.Prefix / HistoryStore.SummaryFields: strings are sequences of code
  points. JavaScript's `substring` counts UTF-16 code units, so a character
  outside the Basic Multilingual Plane counts once here and twice there; the
  real preview can then end in a lone surrogate or hold fewer characters.
- The pages' fetches are not modelled as code: `loadHistoryList`
  (`?limit=20&sortBy=startTime&order=desc`, public/app.js:605),
  `carregarHistorico` (no query, public/app.js:32) and `loadAllHistoricos`
  (public/all-history.js:51). Only the header they send, none, is modelled
  (`AdminAuth.PageHeader`): the admin gate refuses them with 403 before any
  listing runs (see Findings), `loadHistoryList` then shows "Erro ao
  carregar histórico: Erro HTTP: 403", and the all-history page renders
  `data.sessions || []`, the empty-list placeholder.

## Findings

| source | as written | input that shows it | evidently intended | confidence | as-written member | corrected member |
|---|---|---|---|---|---|---|
| server.js:866-874 | the file-path comparator `sortOrder * (bVal - aVal)` with `sortOrder = -1` for 'desc' sorts ascending: 'desc' lists the oldest sessions first and `limit` keeps the oldest | two sessions started at 1 s and 2 s, `order=desc`, `limit=1`: the session started at 1 s is returned | 'desc' newest first, as the database path's `sort({[sortBy]: -1})` (server.js:817-826) does and as the all-history page's `order=desc` request expects | high; not executed | HistoryStore.DescListsOldestFirst | HistoryStore.IntendedDescListsNewestFirst |
| public/app.js:605 | every history request of the pages (public/app.js:32, 605, 703, 819, 887; public/all-history.js:51) goes out without an Authorization header, while every `/api/chat/historicos` route is behind `requireAdminAuth` (server.js:262-284, 807) | the history button's `loadHistoryList` request with any admin secret configured, or none: the gate answers 403, and the panel shows the error instead of the sessions | the pages send the token `/api/admin/login` mints (server.js:287-299) as `Authorization: Bearer <token>` | medium; not executed | AdminAuth.PageRequestDenied | AdminAuth.LoginThenAuthorize |
