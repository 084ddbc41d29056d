/**
 * The chat client itself (`WesleyBot`): the conversation history, the input
 * field, the voice status line, the listening flag and the rendered chat,
 * and the handlers that change them.
 */
module Bot {
  import opened Options
  import opened Text
  import opened Conversation
  import opened VoiceInput

  /** The persisted preferences. */
  datatype Settings = Settings(voiceEnabled: bool, voiceSpeed: real)

  const DefaultSettings: Settings := Settings(true, 1.0)

  /** `loadSettings`: the stored record when there is one, the defaults otherwise. */
  function LoadSettings(saved: Option<Settings>): (s: Settings)
    ensures saved.None? ==> s.voiceEnabled && s.voiceSpeed == 1.0
    ensures saved.Some? ==> s == saved.value
  {
    match saved
    case Some(stored) => stored
    case None => DefaultSettings
  }

  /** How the request to the chat endpoint ended: with the reply text, or with
      any error (transport, non-2xx status, unexpected response shape). */
  datatype Outcome = Success(text: string) | Failure

  const Apology: string := "Sorry, I encountered an error. Please try again! \U{1F605}"

  const Greeting: string :=
    "Hey there! \U{1F44B} I'm Wesley, your AI friend! I'm here to chat, answer questions, "
    + "help with ideas, or just have a fun conversation. What's on your mind?"

  /** The text of the bot's bubble after a request: the reply, or the fixed apology. */
  function ReplyText(outcome: Outcome): (text: string)
    ensures outcome.Success? ==> text == outcome.text
    ensures outcome.Failure? ==> text == Apology
  {
    match outcome
    case Success(reply) => reply
    case Failure => Apology
  }

  /** A message bubble in the chat area: the sender, the rendered HTML and the time stamp. */
  datatype Bubble = Bubble(sender: Sender, html: string, time: string)

  /** What `toggleVoiceRecognition` asks of the recogniser. */
  datatype RecognitionCall = NotSupported | Stop | Start

  const ErrorPrefix: string := "\U{274C} Error: "

  class WesleyBot {
    /** Whether the browser offers speech recognition. */
    const recognitionSupported: bool
    var settings: Settings
    /** `conversationHistory` */
    var history: seq<Message>
    /** `userInput.value` */
    var input: string
    /** `voiceStatus.textContent` */
    var status: string
    var isListening: bool
    /** The bubbles appended to the chat area, in order. */
    var chat: seq<Bubble>

    /** The bot as the page creates it; the history starts empty. */
    constructor (recognitionSupported: bool, saved: Option<Settings>)
      ensures this.recognitionSupported == recognitionSupported
      ensures settings == LoadSettings(saved)
      ensures history == [] && chat == [] && input == "" && status == ""
      ensures !isListening
    {
      this.recognitionSupported := recognitionSupported;
      settings := LoadSettings(saved);
      history := [];
      chat := [];
      input := "";
      status := "";
      isListening := false;
    }

    /** `addMessage`: the bubble shows the text with line feeds as `<br>`; the
        history keeps the text as it was given. */
    method AddMessage(text: string, sender: Sender, now: Clock)
      modifies this`history, this`chat
      ensures history == old(history) + [Message(sender, text)]
      ensures chat == old(chat) + [Bubble(sender, RenderLineBreaks(text), FormatClock(now))]
    {
      var html := RenderLineBreaks(text);
      chat := chat + [Bubble(sender, html, FormatClock(now))];
      history := history + [Message(sender, text)];
    }

    /** `sendMessage`, with the request's outcome given. A blank input changes
        nothing and sends nothing. Otherwise the trimmed input goes into the
        history, the request is built from that history, and exactly one more
        entry follows: the reply or the apology. Only a reply is read aloud,
        and only when voice output is enabled. */
    method SendMessage(outcome: Outcome, sentAt: Clock, repliedAt: Clock)
      returns (request: Option<seq<ChatMessage>>, spoken: Option<string>)
      modifies this`history, this`chat, this`input
      ensures Trim(old(input)) == "" ==>
        && history == old(history) && chat == old(chat) && input == old(input)
        && request == None && spoken == None
      ensures var message := Trim(old(input)); message != "" ==>
        && input == ""
        && history == old(history) + [Message(User, message)] + [Message(Wesley, ReplyText(outcome))]
        && chat == old(chat) + [Bubble(User, RenderLineBreaks(message), FormatClock(sentAt))]
                             + [Bubble(Wesley, RenderLineBreaks(ReplyText(outcome)), FormatClock(repliedAt))]
      ensures var message := Trim(old(input)); message != "" ==>
        request == Some(RequestMessages(old(history) + [Message(User, message)], message))
      ensures Trim(old(input)) != "" ==>
        spoken == (if outcome.Success? && settings.voiceEnabled then Some(outcome.text) else None)
    {
      var message := Trim(input);
      request, spoken := Submit(message, outcome, sentAt, repliedAt);
    }

    /** `sendMessage` once the input has been read and trimmed into `message`. */
    method Submit(message: string, outcome: Outcome, sentAt: Clock, repliedAt: Clock)
      returns (request: Option<seq<ChatMessage>>, spoken: Option<string>)
      modifies this`history, this`chat, this`input
      ensures message == "" ==>
        && history == old(history) && chat == old(chat) && input == old(input)
        && request == None && spoken == None
      ensures message != "" ==>
        && input == ""
        && history == old(history) + [Message(User, message)] + [Message(Wesley, ReplyText(outcome))]
        && chat == old(chat) + [Bubble(User, RenderLineBreaks(message), FormatClock(sentAt))]
                             + [Bubble(Wesley, RenderLineBreaks(ReplyText(outcome)), FormatClock(repliedAt))]
      ensures message != "" ==>
        request == Some(RequestMessages(old(history) + [Message(User, message)], message))
      ensures message != "" ==>
        spoken == (if outcome.Success? && settings.voiceEnabled then Some(outcome.text) else None)
    {
      if message == "" {
        return None, None;
      }
      ghost var history0, chat0 := history, chat;
      ghost var sent := Bubble(User, RenderLineBreaks(message), FormatClock(sentAt));
      AddMessage(message, User, sentAt);
      ghost var sentHistory := history0 + [Message(User, message)];
      assert history == sentHistory && chat == chat0 + [sent];
      var messages := BuildRequestMessages(history, message);
      assert messages == RequestMessages(sentHistory, message);
      request := Some(messages);
      // On success the reply is added (and read aloud when voice is on); on
      // failure the apology takes its place.
      var reply := ReplyText(outcome);
      ghost var replied := Bubble(Wesley, RenderLineBreaks(reply), FormatClock(repliedAt));
      AddMessage(reply, Wesley, repliedAt);
      assert history == sentHistory + [Message(Wesley, reply)] && chat == chat0 + [sent] + [replied];
      spoken := if outcome.Success? && settings.voiceEnabled then Some(reply) else None;
      // The input field was cleared as soon as the message was shown; no
      // handler runs in between, so clearing it here is the same.
      ghost var history2, chat2 := history, chat;
      input := "";
      assert history == history2 && chat == chat2;
    }

    /** `clearChat`, with the answer to the confirmation dialog given: when
        confirmed, the chat and the history hold the greeting alone. */
    method ClearChat(confirmed: bool, now: Clock)
      modifies this`history, this`chat
      ensures confirmed ==> history == [Message(Wesley, Greeting)]
      ensures confirmed ==> chat == [Bubble(Wesley, RenderLineBreaks(Greeting), FormatClock(now))]
      ensures !confirmed ==> history == old(history) && chat == old(chat)
    {
      if confirmed {
        chat := [];
        history := [];
        AddMessage(Greeting, Wesley, now);
      }
    }

    /** `toggleVoiceRecognition`: never changes `isListening` itself; that is
        left to the recogniser's start and end events. */
    method ToggleVoiceRecognition() returns (call: RecognitionCall)
      modifies this`input, this`status
      ensures !recognitionSupported ==> call == NotSupported && input == old(input) && status == old(status)
      ensures recognitionSupported && isListening ==> call == Stop && input == old(input) && status == old(status)
      ensures recognitionSupported && !isListening ==> call == Start && input == "" && status == ""
    {
      if !recognitionSupported {
        return NotSupported;
      }
      if isListening {
        call := Stop;
      } else {
        input := "";
        status := "";
        call := Start;
      }
    }

    /** `onstart`: the only place listening begins. */
    method OnStart()
      requires recognitionSupported
      modifies this`isListening, this`status
      ensures isListening && status == ListeningStatus
    {
      isListening := true;
      status := ListeningStatus;
    }

    /** `onend`: the only place listening ends. The status line is cleared
        later, by `StatusTimerFired`. */
    method OnEnd()
      requires recognitionSupported
      modifies this`isListening
      ensures !isListening
    {
      isListening := false;
    }

    /** The timer `onend` starts (1500 ms): it blanks the status line. */
    method StatusTimerFired()
      modifies this`status
      ensures status == ""
    {
      status := "";
    }

    /** `onerror`: the error code is shown; nothing else changes. */
    method OnError(error: string)
      requires recognitionSupported
      modifies this`status
      ensures status == ErrorPrefix + error
    {
      status := ErrorPrefix + error;
    }

    /** `onresult`: a final transcript replaces the input, trimmed; an interim
        one only shows in the status line. */
    method OnResult(results: seq<SpeechResult>, resultIndex: nat)
      requires recognitionSupported
      modifies this`input, this`status
      ensures var rest := results[StartOf(results, resultIndex)..];
        match ResultEffectOf(FinalText(rest), InterimText(rest))
        case TakeFinal(text, newStatus) => input == text && status == newStatus
        case ShowInterim(newStatus) => input == old(input) && status == newStatus
        case NoEffect => input == old(input) && status == old(status)
    {
      var finalTranscript, interimTranscript := CollectTranscripts(results, resultIndex);
      match ResultEffectOf(finalTranscript, interimTranscript) {
        case TakeFinal(text, newStatus) =>
          input := text;
          status := newStatus;
        case ShowInterim(newStatus) =>
          status := newStatus;
        case NoEffect =>
      }
    }
  }
}
