/**
 * The conversation history the bot keeps and the request payload it derives
 * from it for the chat-completion endpoint (`getAIResponse`).
 */
module Conversation {

  /** Who wrote a message: the person at the keyboard or the bot. */
  datatype Sender = User | Wesley

  /** One entry of `conversationHistory`: `{ sender, text }`. */
  datatype Message = Message(sender: Sender, text: string)

  /** One entry of the request's `messages` array: `{ role, content }`. */
  datatype ChatMessage = ChatMessage(role: string, content: string)

  /** The fixed instruction that opens every request. */
  const SystemPrompt: string :=
    "You are Wesley, a cute and friendly AI companion. Be warm, engaging, and helpful. "
    + "Keep responses concise and friendly. Use emojis occasionally to be cute and expressive."

  const SystemMessage: ChatMessage := ChatMessage("system", SystemPrompt)

  /** `msg.sender === 'user' ? 'user' : 'assistant'`: the user's messages
      get the role `user`, every other sender the role `assistant`. */
  function RoleOf(s: Sender): (role: string)
    ensures role == "user" <==> s == User
    ensures role == "assistant" <==> s != User
  {
    if s == User then "user" else "assistant"
  }

  /** The payload entry a history entry becomes: the text is the content
      unchanged, and the role tells the two senders apart. */
  function ToChatMessage(m: Message): (c: ChatMessage)
    ensures c.content == m.text
    ensures c.role == "user" <==> m.sender == User
  {
    ChatMessage(RoleOf(m.sender), m.text)
  }

  /** The history replayed into the payload, one entry per message, in order. */
  function Replay(history: seq<Message>): (r: seq<ChatMessage>)
    ensures |r| == |history|
    ensures forall i :: 0 <= i < |history| ==> r[i] == ToChatMessage(history[i])
  {
    if history == [] then []
    else Replay(history[..|history| - 1]) + [ToChatMessage(history[|history| - 1])]
  }

  /** Replaying is order-preserving: a longer history only extends the replay. */
  lemma {:induction false} ReplayAppend(a: seq<Message>, b: seq<Message>)
    ensures Replay(a + b) == Replay(a) + Replay(b)
    decreases |b|
  {
    if b != [] {
      var ab := a + b;
      assert ab[..|ab| - 1] == a + b[..|b| - 1];
      ReplayAppend(a, b[..|b| - 1]);
    } else {
      assert a + b == a;
    }
  }

  /** The `messages` array `getAIResponse` sends: the system preamble, the
      whole history mapped sender to role, then the current message as `user`. */
  function RequestMessages(history: seq<Message>, userMessage: string): (r: seq<ChatMessage>)
    ensures |r| == |history| + 2
    ensures r[0] == SystemMessage
    ensures forall i :: 0 <= i < |history| ==> r[i + 1] == ToChatMessage(history[i])
    ensures r[|r| - 1] == ChatMessage("user", userMessage)
  {
    [SystemMessage] + Replay(history) + [ChatMessage("user", userMessage)]
  }

  /** The loop of `getAIResponse`: start from the preamble, push one entry per
      history message, then push the current message. */
  method BuildRequestMessages(history: seq<Message>, userMessage: string) returns (messages: seq<ChatMessage>)
    ensures messages == RequestMessages(history, userMessage)
  {
    messages := [SystemMessage];
    var i := 0;
    while i < |history|
      invariant 0 <= i <= |history|
      invariant messages == [SystemMessage] + Replay(history[..i])
    {
      assert history[..i + 1][..i] == history[..i];
      messages := messages + [ToChatMessage(history[i])];
      i := i + 1;
    }
    assert history[..i] == history;
    messages := messages + [ChatMessage("user", userMessage)];
  }

  /** The bot pushes the new message into the history before it builds the
      request, so the request ends with that message twice. */
  lemma SentMessageAppearsTwice(history: seq<Message>, userMessage: string)
    ensures var r := RequestMessages(history + [Message(User, userMessage)], userMessage);
      && |r| == |history| + 3
      && r[|r| - 2] == ChatMessage("user", userMessage)
      && r[|r| - 1] == ChatMessage("user", userMessage)
  {
    var h := history + [Message(User, userMessage)];
    assert h[|history|] == Message(User, userMessage);
  }

  /** A history `[{user, "hi"}]` and the new message `"there"` give, after the
      preamble, `[{user, "hi"}, {user, "there"}]`. */
  lemma RequestExample()
    ensures RequestMessages([Message(User, "hi")], "there")[1..]
      == [ChatMessage("user", "hi"), ChatMessage("user", "there")]
  {
    var r := RequestMessages([Message(User, "hi")], "there");
    assert r[1] == ToChatMessage(Message(User, "hi"));
  }
}
