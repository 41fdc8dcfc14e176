/**
 * The analyst chat: a message log that starts with a greeting and grows by
 * appends, an input box, a typing flag and a handle on the remote chat
 * session. Sessions are identified by the order in which they were
 * created; what the remote model answers is an input of the step that
 * completes a send.
 */
module ChatAnalyst {
  import opened Wrappers
  import opened JsText
  import opened Types

  const Greeting: string := "Hello! I'm your AI Cricket Analyst. Ask me about rules, history, stats, or strategy."
  const StumpedText: string := "I'm stumped! Could you rephrase that?"
  const ApologyText: string := "Apologies, I encountered a network bouncer. Try again?"
  const ResetText: string := "Session reset. What's on your mind now?"

  /** How a `sendMessage` call settled: rejected, or resolved with a reply whose text may be absent. */
  datatype Reply = Rejected | Replied(text: Option<string>)

  /** A message handed to a session's `sendMessage`. */
  datatype Sent = Sent(session: nat, text: string)

  /** The guard of `handleSend`, and the enabling condition of the send button. */
  function Accepts(input: string, isTyping: bool): (ok: bool)
    ensures ok <==> Trim(input) != [] && !isTyping
    ensures ok ==> !Blank(input)
  {
    !Blank(input) && !isTyping
  }

  /** The turn a settled send appends. */
  function ReplyMessage(reply: Reply): (m: ChatMessage)
    ensures m.role == Model
    ensures m.text != []
    ensures m.isError <==> reply.Rejected?
    ensures reply.Rejected? ==> m.text == ApologyText
    ensures reply.Replied? && Truthy(reply.text) ==> m.text == reply.text.value
    ensures reply.Replied? && !Truthy(reply.text) ==> m.text == StumpedText
  {
    match reply
    case Rejected => ChatMessage(Model, ApologyText, true)
    case Replied(text) => ChatMessage(Model, Or(text, StumpedText), false)
  }

  /** The turn an accepted send appends for the user: the trimmed input. */
  function UserMessage(input: string): (m: ChatMessage)
    requires !Blank(input)
    ensures m.role == User && !m.isError
    ensures m.text != []
  {
    ChatMessage(User, Trim(input), false)
  }

  /** The log after one accepted send has settled: the user turn, then one model turn. */
  function AfterExchange(log: seq<ChatMessage>, input: string, reply: Reply): (r: seq<ChatMessage>)
    requires !Blank(input)
    ensures |r| == |log| + 2
    ensures r[..|log|] == log
    ensures r[|log|].role == User && r[|log| + 1].role == Model
  {
    log + [UserMessage(input), ReplyMessage(reply)]
  }

  class ChatAnalystState {
    var messages: seq<ChatMessage>
    var input: string
    var isTyping: bool
    /** `chatSessionRef.current`: the handle of the live session, if any. */
    var session: Option<nat>
    /** How many sessions `createChatSession` has made; the next one gets this handle. */
    var sessionsCreated: nat
    /** Every message handed to `sendMessage`, in order, with the session it went to. */
    var sent: seq<Sent>

    /** The log is never empty and the session handle is one already made. */
    predicate Valid()
      reads this
    {
      messages != [] && (session.Some? ==> session.value < sessionsCreated)
    }

    /** The initial state: the greeting alone, an empty input, no session yet. */
    constructor()
      ensures Valid()
      ensures messages == [ChatMessage(Model, Greeting, false)]
      ensures input == [] && !isTyping
      ensures session == None && sessionsCreated == 0 && sent == []
    {
      messages := [ChatMessage(Model, Greeting, false)];
      input := [];
      isTyping := false;
      session := None;
      sessionsCreated := 0;
      sent := [];
    }

    /** `createChatSession()`: a session with a handle not used before. */
    method CreateSession()
      requires Valid()
      modifies this`session, this`sessionsCreated
      ensures Valid()
      ensures session == Some(old(sessionsCreated)) && sessionsCreated == old(sessionsCreated) + 1
    {
      session := Some(sessionsCreated);
      sessionsCreated := sessionsCreated + 1;
    }

    /** The mount effect: create a session unless one exists. */
    method Mount()
      requires Valid()
      modifies this`session, this`sessionsCreated
      ensures Valid() && session.Some?
      ensures old(session).Some? ==> session == old(session) && sessionsCreated == old(sessionsCreated)
      ensures old(session).None? ==> session == Some(old(sessionsCreated)) && sessionsCreated == old(sessionsCreated) + 1
    {
      if session.None? {
        CreateSession();
      }
    }

    /** Typing into the box. */
    method SetInput(text: string)
      requires Valid()
      modifies this`input
      ensures Valid()
      ensures input == text
    {
      input := text;
    }

    /** The send button is disabled while the trimmed input is empty or a reply is awaited. */
    predicate CanSend()
      reads this
    {
      Accepts(input, isTyping)
    }

    /**
     * `handleSend` up to the reply: refused, with nothing changed, when the
     * trimmed input is empty or a reply is awaited; otherwise the input is
     * cleared, the trimmed text is appended as a user turn, the typing flag
     * is raised, a session is created if there is none, and the text is
     * handed to it.
     */
    method BeginSend() returns (accepted: bool)
      requires Valid()
      modifies this`input, this`messages, this`isTyping, this`session, this`sessionsCreated, this`sent
      ensures Valid()
      ensures accepted <==> Accepts(old(input), old(isTyping))
      ensures !accepted ==> input == old(input) && messages == old(messages) && isTyping == old(isTyping)
                            && session == old(session) && sessionsCreated == old(sessionsCreated) && sent == old(sent)
      ensures accepted ==> input == [] && isTyping
      ensures accepted ==> messages == old(messages) + [UserMessage(old(input))]
      ensures accepted ==> session.Some? && (old(session).Some? ==> session == old(session))
      ensures accepted && old(session).Some? ==> sessionsCreated == old(sessionsCreated)
      ensures accepted && old(session).None? ==> session == Some(old(sessionsCreated)) && sessionsCreated == old(sessionsCreated) + 1
      ensures accepted ==> sent == old(sent) + [Sent(session.value, Trim(old(input)))]
    {
      if Blank(input) || isTyping {
        return false;
      }
      var userText := Trim(input);
      input := [];
      messages := messages + [ChatMessage(User, userText, false)];
      isTyping := true;
      if session.None? {
        CreateSession();
      }
      sent := sent + [Sent(session.value, userText)];
      return true;
    }

    /** `handleSend` once the reply has settled: one model turn is appended and typing ends. */
    method CompleteSend(reply: Reply)
      requires Valid()
      modifies this`messages, this`isTyping
      ensures Valid()
      ensures messages == old(messages) + [ReplyMessage(reply)]
      ensures !isTyping
    {
      messages := messages + [ReplyMessage(reply)];
      isTyping := false;
    }

    /** `handleSend` from start to end. */
    method HandleSend(reply: Reply) returns (accepted: bool)
      requires Valid()
      modifies this`input, this`messages, this`isTyping, this`session, this`sessionsCreated, this`sent
      ensures Valid()
      ensures accepted <==> Accepts(old(input), old(isTyping))
      ensures !accepted ==> input == old(input) && messages == old(messages) && isTyping == old(isTyping)
                            && session == old(session) && sessionsCreated == old(sessionsCreated) && sent == old(sent)
      ensures accepted ==> input == [] && !isTyping
      ensures accepted ==> messages == AfterExchange(old(messages), old(input), reply)
      ensures accepted ==> |sent| == |old(sent)| + 1 && sent[..|old(sent)|] == old(sent)
      ensures accepted ==> sent[|old(sent)|].text == Trim(old(input))
      ensures accepted ==> session.Some? && sent[|old(sent)|].session == session.value
      ensures accepted && old(session).Some? ==> session == old(session) && sessionsCreated == old(sessionsCreated)
      ensures accepted && old(session).None? ==> session == Some(old(sessionsCreated)) && sessionsCreated == old(sessionsCreated) + 1
    {
      accepted := BeginSend();
      if accepted {
        CompleteSend(reply);
      }
    }

    /**
     * `handleReset`: a fresh session and a log holding only the reset
     * notice; the input and the typing flag are left as they are.
     */
    method HandleReset()
      requires Valid()
      modifies this`messages, this`session, this`sessionsCreated
      ensures Valid()
      ensures messages == [ChatMessage(Model, ResetText, false)]
      ensures session == Some(old(sessionsCreated)) && sessionsCreated == old(sessionsCreated) + 1
      ensures old(session).Some? ==> session != old(session)
    {
      CreateSession();
      messages := [ChatMessage(Model, ResetText, false)];
    }
  }
}
