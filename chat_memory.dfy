/** The server's per-session transcript map (`chatHistories`), kept in memory
    and fed to the AI model as conversation context. Two versions of the
    chat handler exist: server_novo.js sends the transcript as history and
    answers 500 when the model fails; server.js validates its input, sends
    only the prompt, and records a fixed fallback reply when the model
    fails. The AI call is an oracle: its reply text or a failure. */
module ChatMemory {
  import opened Common

  /** What the model call came back with. */
  datatype AiOutcome = Replied(text: string) | Failed

  /** The reply server.js records and returns when the model call throws. */
  const FallbackReply: string :=
    "Oi! 🌤️\nO clima hoje está ameno e nublado, perfeito para começar o dia pensando nas apostas esportivas com calma — sempre com aquele toque especial de carinho pelo professor Vagner! 💛"

  /** The two turns pushed after a reply: the user's message, then the model's. */
  function Exchange(message: string, reply: string): (r: seq<Message>)
    ensures |r| == 2 && r[0].role == User && r[1].role == Model
    ensures r[0].parts == [Part(message)] && r[1].parts == [Part(reply)]
  {
    [TextMessage(User, message, None), TextMessage(Model, reply, None)]
  }

  /** A transcript built only from exchanges: user and model turns alternate,
      starting with the user, one text part each. */
  predicate Alternating(t: seq<Message>) {
    && |t| % 2 == 0
    && forall i :: 0 <= i < |t| ==>
         t[i].role == (if i % 2 == 0 then User else Model) && |t[i].parts| == 1
  }

  /** Appending an exchange keeps a transcript alternating and leaves the
      earlier turns where they were. */
  lemma AlternatingExchange(t: seq<Message>, message: string, reply: string)
    requires Alternating(t)
    ensures Alternating(t + Exchange(message, reply))
    ensures (t + Exchange(message, reply))[..|t|] == t
  {
  }

  /** The user's message, with each reply exactly two positions on, recovers
      every user message sent, in order. */
  function UserMessages(t: seq<Message>): (r: seq<string>)
    requires Alternating(t)
    ensures |r| == |t| / 2
    ensures forall k :: 0 <= k < |r| ==> r[k] == t[2 * k].parts[0].text
  {
    if t == [] then []
    else
      assert Alternating(t[2..]);
      [t[0].parts[0].text] + UserMessages(t[2..])
  }

  lemma {:induction false} UserMessagesOfExchange(t: seq<Message>, message: string, reply: string)
    requires Alternating(t)
    ensures Alternating(t + Exchange(message, reply))
    ensures UserMessages(t + Exchange(message, reply)) == UserMessages(t) + [message]
  {
    AlternatingExchange(t, message, reply);
    var u := t + Exchange(message, reply);
    var a := UserMessages(u);
    var b := UserMessages(t) + [message];
    assert |a| == |b|;
    forall k | 0 <= k < |a| ensures a[k] == b[k] {
      if k < |t| / 2 {
        assert u[2 * k] == t[2 * k];
      } else {
        assert u[2 * k] == Exchange(message, reply)[0];
      }
    }
  }

  /** `cfg?.value || getSystemInstruction(...)`: the stored instruction unless
      it is missing or empty. */
  function Instruction(stored: Option<string>, generated: string): (r: string)
    ensures r == generated || Some(r) == stored
    ensures generated != [] ==> r != []
    ensures stored.Some? && stored.value != [] ==> r == stored.value
  {
    if stored.Some? && stored.value != [] then stored.value else generated
  }

  class ChatMemory {
    var histories: map<string, seq<Message>>

    ghost predicate Valid()
      reads this
    {
      forall id :: id in histories ==> Alternating(histories[id])
    }

    /** The transcript of one session, empty when there is none. */
    function Transcript(sessionId: string): (r: seq<Message>)
      reads this
      ensures sessionId !in histories ==> r == []
    {
      if sessionId in histories then histories[sessionId] else []
    }

    /** `const chatHistories = new Map()` at start-up. */
    constructor ()
      ensures Valid() && histories == map[]
    {
      histories := map[];
    }

    /** POST /api/chat in server_novo.js (server_novo.js:92-140). The session's
        transcript is created if missing, handed to the model as context and,
        on a reply, extended by the exchange. A failed call answers 500 but
        leaves the (possibly new, empty) transcript in place. */
    method Chat(sessionId: string, message: string, instruction: string, ai: AiOutcome)
      returns (r: Result<string>, context: seq<Message>, prompt: string)
      requires Valid()
      modifies this
      ensures Valid()
      ensures context == old(Transcript(sessionId))
      ensures prompt == instruction + "\nUsuário: " + message
      ensures ai.Replied? ==>
        && r == Ok(ai.text)
        && histories == old(histories)[sessionId := context + Exchange(message, ai.text)]
      ensures ai.Failed? ==>
        && r == Err(InternalError)
        && histories == old(histories)[sessionId := context]
    {
      if sessionId !in histories {
        histories := histories[sessionId := []];
      }
      context := histories[sessionId];
      prompt := instruction + "\nUsuário: " + message;
      match ai
      case Failed =>
        r := Err(InternalError);
      case Replied(text) =>
        AlternatingExchange(context, message, text);
        histories := histories[sessionId := context + Exchange(message, text)];
        r := Ok(text);
    }

    /** POST /api/chat in server.js (server.js:90-151). Message and session id
        are required and the AI client must exist; the transcript is not sent
        to the model, only the prompt; a failed call is answered, and
        recorded, with the fixed fallback reply. */
    method ChatWithFallback(sessionId: string, message: string, aiAvailable: bool,
                            stored: Option<string>, generated: string, ai: AiOutcome)
      returns (r: Result<string>, prompt: string)
      requires Valid()
      modifies this
      ensures Valid()
      ensures message == [] || sessionId == [] ==> r == Err(BadRequest) && histories == old(histories)
      ensures message != [] && sessionId != [] && !aiAvailable ==>
        r == Err(ServiceUnavailable) && histories == old(histories)
      ensures message != [] && sessionId != [] && aiAvailable ==>
        var reply := if ai.Replied? then ai.text else FallbackReply;
        && prompt == Instruction(stored, generated) + "\n\nUsuário: " + message
        && r == Ok(reply)
        && histories == old(histories)[sessionId := old(Transcript(sessionId)) + Exchange(message, reply)]
    {
      prompt := "";
      if message == [] || sessionId == [] {
        return Err(BadRequest), prompt;
      }
      if !aiAvailable {
        return Err(ServiceUnavailable), prompt;
      }
      var instruction := Instruction(stored, generated);
      if sessionId !in histories {
        histories := histories[sessionId := []];
      }
      var history := histories[sessionId];
      prompt := instruction + "\n\nUsuário: " + message;
      var reply := if ai.Replied? then ai.text else FallbackReply;
      AlternatingExchange(history, message, reply);
      histories := histories[sessionId := history + Exchange(message, reply)];
      r := Ok(reply);
    }

    /** POST /api/clear-chat in server_novo.js (server_novo.js:143-147): no
        check; the session's transcript is dropped. */
    method Clear(sessionId: string)
      requires Valid()
      modifies this
      ensures Valid()
      ensures histories == old(histories) - {sessionId}
    {
      histories := histories - {sessionId};
    }

    /** POST /api/clear-chat in server.js (server.js:154-159): the session id
        is required. */
    method ClearChecked(sessionId: string) returns (r: Outcome)
      requires Valid()
      modifies this
      ensures Valid()
      ensures sessionId == [] ==> r == Failure(BadRequest) && histories == old(histories)
      ensures sessionId != [] ==> r == Success && histories == old(histories) - {sessionId}
    {
      if sessionId == [] {
        return Failure(BadRequest);
      }
      histories := histories - {sessionId};
      r := Success;
    }
  }

  /** A session's context after a string of successful turns holds every
      message sent, in order, in the user positions. */
  lemma {:induction false} TranscriptRecordsMessages(messages: seq<string>, replies: seq<string>)
    requires |messages| == |replies|
    ensures Alternating(Conversation(messages, replies))
    ensures UserMessages(Conversation(messages, replies)) == messages
  {
    if messages != [] {
      var n := |messages| - 1;
      assert messages == messages[..n] + [messages[n]];
      TranscriptRecordsMessages(messages[..n], replies[..n]);
      UserMessagesOfExchange(Conversation(messages[..n], replies[..n]), messages[n], replies[n]);
    }
  }

  /** The transcript left by successful turns starting from an empty one. */
  function Conversation(messages: seq<string>, replies: seq<string>): (r: seq<Message>)
    requires |messages| == |replies|
    ensures |r| == 2 * |messages|
    ensures forall k :: 0 <= k < |messages| ==>
      r[2 * k] == TextMessage(User, messages[k], None) && r[2 * k + 1] == TextMessage(Model, replies[k], None)
  {
    if messages == [] then []
    else
      var n := |messages| - 1;
      var before := Conversation(messages[..n], replies[..n]);
      var r := before + Exchange(messages[n], replies[n]);
      assert forall k :: 0 <= k < n ==> r[2 * k] == before[2 * k] && r[2 * k + 1] == before[2 * k + 1];
      assert forall k :: 0 <= k < n ==> messages[..n][k] == messages[k] && replies[..n][k] == replies[k];
      r
  }
}
