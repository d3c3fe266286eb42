/** The chat page's state in public/app.js: the session id, its start time,
    the local transcript `chatHistory` with its counter `messageCount`, and
    the `isWaitingForResponse` flag, together with the handlers that change
    them. Network calls are parameters: what `/api/chat` answered, and
    whether the `/api/clear-chat` request went out. Times are milliseconds;
    ISO timestamps are strings supplied by the caller. */
module ClientChat {
  import opened Common
  import HistoryStore
  import DurationFormat

  /** The bot id every save from this page carries. */
  const BotId: string := "chatbot-mestre-prognosticos"

  /** The model turn a fresh session starts with. */
  const Greeting: string :=
    "Olá! Sou o Mestre dos Prognósticos. Pronto para dominar o mundo das apostas esportivas?"

  const ErrorPrefix: string := "Erro: "

  // ---------------------------------------------------------------------
  // String.prototype.trim

  /** The characters `trim` removes: ECMAScript WhiteSpace and LineTerminator. */
  predicate IsJsWhitespace(c: char) {
    || c == '\t' || c == '\n' || c == '\U{B}' || c == '\U{C}' || c == '\r' || c == ' '
    || c == '\U{A0}' || c == '\U{1680}' || ('\U{2000}' <= c <= '\U{200A}')
    || c == '\U{2028}' || c == '\U{2029}' || c == '\U{202F}' || c == '\U{205F}'
    || c == '\U{3000}' || c == '\U{FEFF}'
  }

  /** How many characters of class `ws` open `s`. */
  function LeadingBlanks(s: string, ws: char -> bool): (n: nat)
    ensures n <= |s|
    ensures forall i :: 0 <= i < n ==> ws(s[i])
    ensures n < |s| ==> !ws(s[n])
  {
    if s != [] && ws(s[0]) then
      var n := 1 + LeadingBlanks(s[1..], ws);
      assert forall i :: 1 <= i < n ==> s[i] == s[1..][i - 1];
      n
    else 0
  }

  /** How many characters of class `ws` close `s`. */
  function TrailingBlanks(s: string, ws: char -> bool): (n: nat)
    ensures n <= |s|
    ensures forall i :: |s| - n <= i < |s| ==> ws(s[i])
    ensures n < |s| ==> !ws(s[|s| - n - 1])
  {
    if s != [] && ws(s[|s| - 1]) then 1 + TrailingBlanks(s[..|s| - 1], ws) else 0
  }

  /** Drops the leading characters of class `ws`. */
  function TrimStart(s: string, ws: char -> bool): (r: string)
    ensures |r| <= |s| && r == s[|s| - |r|..]
    ensures forall i :: 0 <= i < |s| - |r| ==> ws(s[i])
    ensures r != [] ==> !ws(r[0])
  {
    s[LeadingBlanks(s, ws)..]
  }

  /** Drops the trailing characters of class `ws`. */
  function TrimEnd(s: string, ws: char -> bool): (r: string)
    ensures |r| <= |s| && r == s[..|r|]
    ensures forall i :: |r| <= i < |s| ==> ws(s[i])
    ensures r != [] ==> !ws(r[|r| - 1])
  {
    s[..|s| - TrailingBlanks(s, ws)]
  }

  /** Trimming by a character class; the lemmas below hold for any class. */
  function TrimBy(s: string, ws: char -> bool): string {
    TrimEnd(TrimStart(s, ws), ws)
  }

  /** `s.trim()`. */
  function Trim(s: string): (r: string)
    ensures |r| <= |s|
    ensures r != [] ==> !IsJsWhitespace(r[0]) && !IsJsWhitespace(r[|r| - 1])
    ensures r == [] <==> forall k :: 0 <= k < |s| ==> IsJsWhitespace(s[k])
  {
    TrimCutsBlankEnds(s, IsJsWhitespace);
    TrimEmptyIffBlank(s, IsJsWhitespace);
    TrimBy(s, IsJsWhitespace)
  }

  /** `trim` cuts whitespace, and only whitespace, from both ends: what is
      left is a contiguous piece of the input with a non-blank first and
      last character. */
  lemma TrimCutsBlankEnds(s: string, ws: char -> bool)
    ensures var r := TrimBy(s, ws);
      var i := |s| - |TrimStart(s, ws)|;
      && 0 <= i <= |s| - |r| && r == s[i..i + |r|]
      && (forall k :: 0 <= k < i ==> ws(s[k]))
      && (forall k :: i + |r| <= k < |s| ==> ws(s[k]))
      && (r != [] ==> !ws(r[0]) && !ws(r[|r| - 1]))
  {
    var t := TrimStart(s, ws);
    var r := TrimEnd(t, ws);
    var i := |s| - |t|;
    assert r == s[i..i + |r|];
    forall k | i + |r| <= k < |s| ensures ws(s[k]) {
      assert s[k] == t[k - i];
    }
    if r != [] {
      assert r[0] == t[0];
    }
  }

  /** A message trims to nothing exactly when it is all whitespace. */
  lemma TrimEmptyIffBlank(s: string, ws: char -> bool)
    ensures TrimBy(s, ws) == [] <==> forall k :: 0 <= k < |s| ==> ws(s[k])
  {
  }

  lemma TrimIdempotent(s: string, ws: char -> bool)
    ensures TrimBy(TrimBy(s, ws), ws) == TrimBy(s, ws)
  {
    var r := TrimBy(s, ws);
    if r != [] {
      assert TrimStart(r, ws) == r;
      assert TrimEnd(r, ws) == r;
    }
  }

  // ---------------------------------------------------------------------
  // The save payload

  /** The body `salvarHistoricoSessao` posts, or `None` when the transcript
      is empty and nothing is sent. */
  function SessionPayload(sessionId: string, startTime: int, history: seq<Message>, now: int)
    : (r: Option<HistoryStore.SaveRequest>)
    ensures r.None? <==> history == []
    ensures r.Some? ==>
      && r.value.sessionId == sessionId
      && r.value.userId == None
      && r.value.botId == Some(BotId)
      && r.value.startTime == Some(startTime) && r.value.endTime == Some(now)
      && r.value.messages == Some(history)
      && r.value.titulo == None
  {
    if history == [] then None
    else Some(HistoryStore.SaveRequest(sessionId, None, Some(BotId), Some(startTime), Some(now),
                                       Some(history), None))
  }

  /** Every turn the page records has exactly one text part. */
  predicate SinglePart(history: seq<Message>) {
    forall i :: 0 <= i < |history| ==> |history[i].parts| == 1
  }

  /** What the page posts is stored whole: after the server's upsert the
      record under this session id holds the page's transcript, and the
      listing can summarise it (its first message has a part to preview). */
  lemma PayloadStoredWhole(stored: seq<HistoryStore.Session>, sessionId: string,
                           startTime: int, history: seq<Message>, now: int, savedAt: int)
    requires history != [] && SinglePart(history)
    ensures var req := SessionPayload(sessionId, startTime, history, now).value;
      var after := HistoryStore.Upsert(stored, HistoryStore.Stamp(req, savedAt));
      && HistoryStore.Find(after, sessionId).Some?
      && HistoryStore.Find(after, sessionId).value.messages == Some(history)
      && HistoryStore.Summarize(HistoryStore.Find(after, sessionId).value).Some?
      && HistoryStore.Summarize(HistoryStore.Find(after, sessionId).value).value.messageCount == |history|
  {
    var req := SessionPayload(sessionId, startTime, history, now).value;
    HistoryStore.UpsertThenFind(stored, HistoryStore.Stamp(req, savedAt));
  }

  // ---------------------------------------------------------------------

  /** What `fetch('/api/chat')` produced: the reply text, or the message of
      the error `sendMessage` caught. */
  datatype ChatResponse = Reply(text: string) | Thrown(message: string)

  /** The error message `sendMessage` throws for a non-2xx answer. */
  function HttpFailure(status: nat, body: string): (r: ChatResponse)
    ensures r.Thrown? && |r.message| > |"HTTP "| + |" - "| + |body|
    ensures r.message[..5] == "HTTP "
    ensures r.message[|r.message| - |body| - 3..|r.message| - |body|] == " - "
    ensures r.message[|r.message| - |body|..] == body
    ensures var code := r.message[5..|r.message| - |body| - 3];
      code != [] && DurationFormat.AllDigits(code) && DurationFormat.ParseNat(code) == status
  {
    var code := DurationFormat.NatToString(status);
    var m := "HTTP " + code + " - " + body;
    assert m[..5] == "HTTP ";
    assert m[5..|m| - |body| - 3] == code;
    assert m[|m| - |body| - 3..|m| - |body|] == " - ";
    assert m[|m| - |body|..] == body;
    DurationFormat.ParseNatToString(status);
    Thrown(m)
  }

  class ChatClient {
    var sessionId: string
    var sessionStartTime: int
    var chatHistory: seq<Message>
    var messageCount: int
    var isWaitingForResponse: bool

    ghost predicate Valid()
      reads this
    {
      && messageCount == |chatHistory|
      && sessionId != []
      && SinglePart(chatHistory)
    }

    /** The page's globals at load: an id from `Date.now()`, nothing recorded. */
    constructor (now: nat)
      ensures Valid()
      ensures sessionId == DurationFormat.NatToString(now) && sessionStartTime == now
      ensures chatHistory == [] && messageCount == 0 && !isWaitingForResponse
    {
      sessionId := DurationFormat.NatToString(now);
      sessionStartTime := now;
      chatHistory := [];
      messageCount := 0;
      isWaitingForResponse := false;
    }

    /** `adicionarMensagemAoHistorico(content, role)` (public/app.js:228-239). */
    method AddToHistory(content: string, role: Role, timestamp: string)
      requires Valid()
      modifies this
      ensures Valid()
      ensures chatHistory == old(chatHistory) + [TextMessage(role, content, Some(timestamp))]
      ensures messageCount == old(messageCount) + 1
      ensures sessionId == old(sessionId) && sessionStartTime == old(sessionStartTime)
      ensures isWaitingForResponse == old(isWaitingForResponse)
    {
      chatHistory := chatHistory + [TextMessage(role, content, Some(timestamp))];
      messageCount := messageCount + 1;
    }

    /** `salvarHistoricoSessao()` (public/app.js:178-225): the body it posts,
        if any. Whatever the server answers, the page state is untouched. */
    method SaveSession(now: int) returns (sent: Option<HistoryStore.SaveRequest>)
      requires Valid()
      ensures sent == SessionPayload(sessionId, sessionStartTime, chatHistory, now)
    {
      if |chatHistory| == 0 {
        return None;
      }
      sent := Some(HistoryStore.SaveRequest(sessionId, None, Some(BotId), Some(sessionStartTime),
                                            Some(now), Some(chatHistory), None));
    }

    /** `sendMessage(userInput)` (public/app.js:290-335): the user's turn is
        recorded first; then the reply, or "Erro: " and the error message, is
        recorded as a model turn; only after a reply is the session saved.
        The flag is cleared either way. */
    method SendMessage(userInput: string, response: ChatResponse, userTs: string, replyTs: string, now: int)
      returns (sent: Option<HistoryStore.SaveRequest>)
      requires Valid()
      modifies this
      ensures Valid()
      ensures sessionId == old(sessionId) && sessionStartTime == old(sessionStartTime)
      ensures !isWaitingForResponse
      ensures response.Reply? ==>
        && chatHistory == old(chatHistory) + [TextMessage(User, userInput, Some(userTs)),
                                              TextMessage(Model, response.text, Some(replyTs))]
        && sent == SessionPayload(sessionId, sessionStartTime, chatHistory, now)
        && sent.Some?
      ensures response.Thrown? ==>
        && chatHistory == old(chatHistory) + [TextMessage(User, userInput, Some(userTs)),
                                              TextMessage(Model, ErrorPrefix + response.message, Some(replyTs))]
        && sent == None
      ensures messageCount == old(messageCount) + 2
    {
      AddToHistory(userInput, User, userTs);
      match response {
        case Reply(text) =>
          AddToHistory(text, Model, replyTs);
          sent := SaveSession(now);
        case Thrown(message) =>
          AddToHistory(ErrorPrefix + message, Model, replyTs);
          sent := None;
      }
      isWaitingForResponse := false;
    }

    /** `clearChat()` (public/app.js:338-378). A non-empty transcript is saved
        first. When the `/api/clear-chat` request cannot be sent the error is
        swallowed and nothing else changes; otherwise a new session starts
        whose transcript is the greeting alone. */
    method ClearChat(requestSent: bool, now: nat, suffix: string, greetingTs: string)
      returns (sent: Option<HistoryStore.SaveRequest>)
      requires Valid()
      modifies this
      ensures Valid()
      ensures sent == old(SessionPayload(sessionId, sessionStartTime, chatHistory, now))
      ensures isWaitingForResponse == old(isWaitingForResponse)
      ensures !requestSent ==>
        && sessionId == old(sessionId) && sessionStartTime == old(sessionStartTime)
        && chatHistory == old(chatHistory) && messageCount == old(messageCount)
      ensures requestSent ==>
        && sessionId == DurationFormat.NatToString(now) + "_" + suffix
        && sessionStartTime == now
        && chatHistory == [TextMessage(Model, Greeting, Some(greetingTs))]
        && messageCount == 1
    {
      sent := SaveSession(now);
      if !requestSent {
        return;
      }
      sessionId := DurationFormat.NatToString(now) + "_" + suffix;
      chatHistory := [];
      sessionStartTime := now;
      messageCount := 0;
      AddToHistory(Greeting, Model, greetingTs);
    }

    /** `handleUserMessage()` (public/app.js:381-393): nothing happens while a
        reply is pending or when the input is blank; otherwise the trimmed
        text is sent and the flag is raised. */
    method HandleUserMessage(input: string) returns (toSend: Option<string>)
      requires Valid()
      modifies this
      ensures Valid()
      ensures sessionId == old(sessionId) && sessionStartTime == old(sessionStartTime)
      ensures chatHistory == old(chatHistory) && messageCount == old(messageCount)
      ensures old(isWaitingForResponse) ==> toSend == None && isWaitingForResponse
      ensures !old(isWaitingForResponse) && Trim(input) == [] ==>
        toSend == None && !isWaitingForResponse
      ensures !old(isWaitingForResponse) && Trim(input) != [] ==>
        toSend == Some(Trim(input)) && isWaitingForResponse
    {
      if isWaitingForResponse {
        return None;
      }
      var message := Trim(input);
      if message == [] {
        return None;
      }
      isWaitingForResponse := true;
      toSend := Some(message);
    }
  }
}
