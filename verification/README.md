# Wesley chat client — Dafny model

Wesley is a browser chat bot. The page's `WesleyBot` class (`script.js`) does
the following:

- it keeps a conversation history of `{sender, text}` entries;
- it sends the trimmed input, together with the history, to a chat-completion
  endpoint, and shows the reply or a fixed apology;
- it can read the reply aloud in a British voice;
- it can fill the input field from the browser's speech recogniser.

This project models that class and proves what it does.

- `options.dfy`: the `Option` type.
- `text.dfy`: the string operations the class relies on:
  - JavaScript's `trim`, over the WhiteSpace and LineTerminator characters of
    ECMA-262 (sections 12.2 and 12.3);
  - `includes`;
  - the newline-to-`<br>` rendering of a bubble;
  - the `HH:MM` time stamp of `getCurrentTime`.
- `conversation.dfy`: the history entries and the request payload
  `getAIResponse` builds from them:
  - the system preamble;
  - the history mapped sender to role;
  - the new message as `user`.
- `voice_output.dfy`: the two-pass `setVoice` search, and the utterance
  `speakText` hands to the synthesiser.
- `voice_input.dfy`: how `onresult` folds the recogniser's results into a
  final and an interim transcript, and what it then does with them.
- `bot.dfy`: the class `WesleyBot`, whose fields are:
  - the settings;
  - the history;
  - the input field;
  - the voice status line;
  - the listening flag;
  - the bubbles shown in the chat area.

  Its methods are the handlers that update these fields.

The environment is given to the model as parameters:

- the request's result is an `Outcome`: `Success(text)` or `Failure`;
- the answer to `confirm` is a `bool`;
- the wall clock is a `Clock`;
- the synthesiser's voice list is a sequence;
- whether the browser has speech recognition or synthesis is a `bool`.

Some behaviours are modelled as the code has them:

- `sendMessage` pushes the new message into the history before
  `getAIResponse` builds the payload from the history. So every payload ends
  with the new message twice.
- The name test of `setVoice` is a case-sensitive substring test, so a voice
  named `Female` passes it through `male`.

## Model

| member | source | states |
|---|---|---|
| Text.Strip | script.js:127 | `s` without the characters of a set at either end. The result is empty exactly when every character of `s` is in the set; otherwise its first and last characters are outside the set. |
| Text.LeadingRunSpan | script.js:127 | The leading run that `trim` removes holds only characters from the set, and it ends at the end of the string or at a character outside the set. |
| Text.TrailingRunSpan | script.js:127 | The trailing run that `trim` removes holds only characters from the set, and it is preceded by the start of the string or by a character outside the set. |
| Text.StripIsMiddle | script.js:127 | The stripped text is a contiguous slice of `s`, with only set characters before and after it. |
| Text.StripDropsTrailing | script.js:127 | Appending a character from the set does not change the stripped text. |
| Text.Trim | script.js:127 | `trim`: empty exactly for blank input; otherwise it begins and ends with a non-whitespace character. |
| Text.TrimIsMiddle | script.js:127 | `trim` removes only whitespace, and only at the two ends. |
| Text.TrimDropsTrailingSpace | script.js:90 | A trailing space, such as the one the dictation loop appends, is removed by `trim`. |
| Text.Contains | script.js:223-226 | `includes`: some suffix of the string starts with the substring. Its meaning is proved in `ContainsIffOccurs`. |
| Text.ContainsIffOccurs | script.js:223-226 | The recursive `includes` holds exactly when the substring occurs at some position. |
| Text.RenderLineBreaks | script.js:266 | No line feed survives rendering, and the HTML is three characters longer per line feed. |
| Text.RenderConcat | script.js:266 | Rendering works character by character: it distributes over concatenation. |
| Text.RenderWithoutLineFeed | script.js:266 | Text without line feeds is shown unchanged. |
| Text.DecimalString | script.js:292 | `String(n)`: at least one digit, and no leading zero. |
| Text.DecimalStringRoundTrip | script.js:292 | The digits of `String(n)` denote `n`. |
| Text.LeadingZero | script.js:292 | A zero put in front by `padStart` does not change the value of the digits. |
| Text.PadStart | script.js:292 | `padStart`: the result's length is the larger of the two lengths. It is fill characters, followed by `s` unchanged. |
| Text.TwoDigits | script.js:292-293 | A zero-padded hour or minute is exactly two digits. |
| Text.TwoDigitsRoundTrip | script.js:292-293 | The two padded digits denote the number they were made from. |
| Text.FormatClock | script.js:290-295 | `getCurrentTime` is five characters with a colon in the middle. |
| Text.ClockRoundTrip | script.js:290-295 | Parsing the time stamp gives back the hours and the minutes. |
| Conversation.RoleOf | script.js:168 | The role is `user` exactly for the user's messages, and `assistant` for every other sender. |
| Conversation.ToChatMessage | script.js:167-170 | A history entry's payload entry carries its text unchanged as content, and has role `user` exactly when the user sent it. |
| Conversation.Replay | script.js:166-171 | The history replayed into payload entries: one entry per message, in order, with the sender mapped to a role and the text as content. |
| Conversation.ReplayAppend | script.js:166-171 | Replaying preserves order: replaying a longer history only extends the replay. |
| Conversation.RequestMessages | script.js:158-177 | The payload is `|history| + 2` entries long. It is the system preamble, then every history entry mapped in order, then the new message as `user`. |
| Conversation.BuildRequestMessages | script.js:158-177 | The `push` loop builds exactly the payload `RequestMessages` describes. |
| Conversation.SentMessageAppearsTwice | script.js:126-177 | After `sendMessage` has pushed the message, the payload's last two entries are both that message as `user`. |
| Conversation.RequestExample | script.js:158-177 | One worked payload, with the preamble stripped off. |
| VoiceOutput.IsBritish | script.js:223 | The language test of both passes: the tag contains `en-GB` or `en_GB`. |
| VoiceOutput.HasMaleName | script.js:224-226 | The name test of the first pass: the name contains one of the six markers, case-sensitively. |
| VoiceOutput.FirstWhere | script.js:222-231 | One search loop with `break`: the first index whose voice passes the test, or none when no voice passes. |
| VoiceOutput.PreferredVoice | script.js:217-245 | The chosen voice is always British. No voice is chosen exactly when no voice is British. |
| VoiceOutput.SelectVoice | script.js:217-245 | The two loops of `setVoice` pick exactly the preferred voice. |
| VoiceOutput.FirstWhereUnique | script.js:222-231 | The search's result is the only index with the first-hit property. |
| VoiceOutput.MaleVoiceWins | script.js:221-231 | The first British voice with a male-sounding name is chosen, whatever other voices are listed. |
| VoiceOutput.FirstBritishVoiceOtherwise | script.js:233-241 | When no British voice has a male-sounding name, the first British voice is chosen. |
| VoiceOutput.FemaleNamePassesMaleTest | script.js:224-226 | Every name containing `Female` passes the name test, because `Female` contains `male`. |
| VoiceOutput.FemaleVoiceBeatsNeutralVoice | script.js:217-245 | A British voice named `Female` is chosen ahead of an earlier British voice named `Amy`. |
| VoiceOutput.NoMarkerInAmy | script.js:224-226 | `Amy` fails all six name tests. |
| VoiceOutput.SpeakText | script.js:200-256 | Without a synthesiser nothing is spoken. Otherwise the text is spoken in `en-GB`, with the preferred voice or the default one. It is never spoken in a non-British voice. |
| VoiceInput.FinalText | script.js:80-87 | The final transcript the loop accumulates: each final result's transcript followed by a space, in order. |
| VoiceInput.InterimText | script.js:80-87 | The interim transcript the loop accumulates: each non-final result's transcript, in order, run together. |
| VoiceInput.FinalTextEmptyIff | script.js:80-89 | The final transcript is non-empty exactly when some result is final. |
| VoiceInput.FinalTextAppend | script.js:80-87 | The final transcript of two batches is the two final transcripts in order. |
| VoiceInput.InterimTextAppend | script.js:80-87 | The interim transcript of two batches is the two interim transcripts in order. |
| VoiceInput.StartOf | script.js:80 | The loop starts at `resultIndex`, or it runs zero times when `resultIndex` is past the end. |
| VoiceInput.CollectTranscripts | script.js:76-87 | The two transcripts depend only on the results from `resultIndex` on. |
| VoiceInput.ScanResults | script.js:80-87 | The accumulating loop yields exactly the final and interim transcripts of the results it visits. |
| VoiceInput.ResultEffectOf | script.js:89-94 | A non-empty final transcript fills the input, trimmed, and shows `✓ Got it!`. Otherwise a non-empty interim transcript only reaches the status line. Otherwise nothing happens. |
| VoiceInput.FinalResultWins | script.js:89-91 | Once any result is final, the input takes the trimmed final transcript and the interim text is ignored. |
| VoiceInput.InterimOnlyTouchesStatus | script.js:92-94 | Without a final result the input is never taken over. Non-empty interim text only reaches the status line. |
| VoiceInput.SingleFinalResultFillsInput | script.js:80-90 | A single final result fills the input with its own transcript, trimmed. |
| Bot.LoadSettings | script.js:325-334 | With nothing saved, voice is on at speed 1. Otherwise the saved settings are used. |
| Bot.ReplyText | script.js:140-151 | The bot's entry is the reply on success and the fixed apology on failure. |
| Bot.WesleyBot.constructor | script.js:3-33 | The bot starts with loaded settings, an empty history, no bubbles and not listening. |
| Bot.WesleyBot.AddMessage | script.js:258-279 | One bubble is added, with newlines rendered and the current time. The history gains the unrendered text. Nothing earlier changes. |
| Bot.WesleyBot.SendMessage | script.js:126-154 | Blank input changes nothing, and no request is sent. Otherwise the history grows by exactly the user's trimmed message and then one reply or apology, and the input is emptied. The request is built from the history that already holds the message. The reply is spoken only on success with voice enabled. |
| Bot.WesleyBot.Submit | script.js:128-153 | The same send cycle, once the input has been trimmed. |
| Bot.WesleyBot.ClearChat | script.js:297-303 | When confirmed, the chat and the history hold exactly the greeting from Wesley. When declined, nothing changes. |
| Bot.WesleyBot.ToggleVoiceRecognition | script.js:111-124 | Without support nothing changes. While listening it only asks the recogniser to stop. Otherwise it clears the input and the status and starts the recogniser. It never sets the listening flag. |
| Bot.WesleyBot.OnStart | script.js:70-74 | Listening begins, and the status shows the listening line. |
| Bot.WesleyBot.OnEnd | script.js:102-104 | Listening ends. Only the flag changes. |
| Bot.WesleyBot.StatusTimerFired | script.js:105-107 | The status line is blanked when the timer started by `onend` fires. |
| Bot.WesleyBot.OnError | script.js:97-100 | The status shows the error code after the error prefix. Nothing else changes. |
| Bot.WesleyBot.OnResult | script.js:76-95 | The input and the status change exactly as `ResultEffectOf` says for the transcripts of the results from `resultIndex` on. Nothing else changes. |

The listening flag is in the `modifies` clause of `OnStart` and `OnEnd`
only. So those two handlers are the only ones that can set it and clear it.

## Left out

- `server.js` is not part of this model. It is a relay to the upstream API with fixed request fields and no logic of its own.
- The network exchange is collapsed into the `Outcome` parameter. This covers `fetch`, the status check, `response.json()` and reading `choices[0].message.content`.
- The catch in `sendMessage` (script.js:148-151) also catches errors thrown after the reply arrived. The model only fails on the request, so the two-entry growth that `SendMessage` promises assumes that nothing after the request throws.
  - If `speakText` throws after the reply was added (script.js:142-147), the apology is added as well and the history grows by three entries. For example, a stored record without a numeric `voiceSpeed` makes `utterance.rate` NaN at script.js:211, and that assignment throws. This is excluded by the well-formed-settings assumption below.
  - A reply that is not a string throws at script.js:266, before its history push. Then only the apology is added, which is the model's `Failure` case.
- JavaScript strings are sequences of UTF-16 code units; the model's strings are sequences of Unicode scalar values, so lone surrogates cannot be represented. Nothing modelled depends on the difference: every character `trim` removes is in the Basic Multilingual Plane, and substring tests agree on well-formed text.
- Overlapping sends are not modelled; each send is one atomic step. `sendMessage` is `async` and has no guard against a second send before the reply arrives.
- DOM effects are not modelled: element lookups, `classList`, `scrollTop`, `focus`, the typing indicator, and the event listeners that call `sendMessage` on a click or an Enter key. Only the rendered HTML string and the time stamp of each bubble are kept.
- Browser speech objects are not modelled:
  - `speechSynthesis.cancel`;
  - the deferral of `setVoice` to `onvoiceschanged` when the voice list is still empty (`SpeakText` takes the voice list as it is at speaking time);
  - the recogniser's `continuous`, `interimResults` and `lang` settings;
  - the utterance's floating-point `rate`, `pitch` and `volume`.
- Bot.WesleyBot.SendMessage: returns the text handed to `speakText`, not the utterance. `VoiceOutput.SpeakText` models the utterance for a given text.
- Only the first alternative of each recognition result (`results[i][0]`) is modelled.
- The dialogs are not modelled: `alert` in `toggleVoiceRecognition` is the `NotSupported` answer, and `confirm` in `clearChat` is a `bool` parameter.
- `console` logging is left out.
- Settings storage is not modelled. `localStorage`, `JSON.parse` and `JSON.stringify` become an `Option<Settings>`: `None` for a missing or empty stored string, and otherwise the parsed record, assumed well-formed.
- `openSettings`, `closeSettings` and `saveSettingsHandler` are settings-dialog plumbing and are left out.
- The greeting that the page shows before any message is static HTML; it is not in the history. Only `clearChat` puts the greeting into the history.
- Bot.WesleyBot.Submit: empties the input field at the end of the send, not right after the user's bubble is added. No handler runs in between in the single-step model, so the final state is the same.
- The 1500 ms `setTimeout` of `onend` is the separate method `StatusTimerFired`; the delay is not modelled.
