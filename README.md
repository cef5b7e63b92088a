# Conversation pipeline of the GiziAI digital-human front end

This project models, in Dafny, the sequential logic of the browser front end
that lets a user type or speak a nutrition question to a 3D "digital human":

- the shared conversation state (`SpeechProvider` in
  `src/hooks/useSpeech.jsx`): the `loading` flag, the FIFO queue of reply
  messages whose head is the current `message`, the session id, the
  recording flag and the buffer of recorded chunks, and the normalisation
  of backend replies (`processResponseMessages`, `createFallbackLipsync`,
  the byte loop of `base64ToBlob`);
- the typewriter reveal of the speech bubble
  (`src/components/SpeechBubble.jsx`);
- the chat surface (`src/components/ChatInterface.jsx`): send and record
  gating, Enter handling, the bubble's show / hide / dwell-timer lifecycle
  and the derived `disabled` and `isVisible` flags.

Files: `wrappers.dfy` (Option for `null`), `text.dfy` (`String.prototype.trim`
with ECMAScript's whitespace set), `replies.dfy` (reply normalisation),
`speech.dfy` (class `Speech.Session`), `bubble.dfy` (class
`Bubble.SpeechBubble`), `chat.dfy` (class `Chat.ChatInterface` and the
worked exchange in module `Exchange`).

Each asynchronous request is two events: `Tts` or `SendAudioData` sends it
(it joins `pending`), and `CompleteSuccess(k, resp)` or `CompleteFailure(k)`
answers the `k`-th pending request. Timer firings, recorder callbacks and
renders are methods the environment calls. The ghost fields
`received` and `played` of `Session` keep the invariant
`received == played + messages`: messages are played in exactly the order
they were queued. Every queued message has non-empty text, which is why
the chat surface shows a bubble for every current message.

Where the written design and the code differ, the model follows the code:
a failed audio request queues its apology with lipsync `null` (only the
text path uses the fallback cues); a missing animation defaults to `"Sad"`;
a reply list that is empty queues nothing, so "every send queues at least
one message" does not hold (`Speech.AnsweredEmptyIff`); and an answer
without a `messages` field adopts the session id and then queues the
apology, because `.map` of `undefined` throws inside the `try`.

## Model

| member | source | states |
|---|---|---|
| `Text.TrimStartSpec` | src/hooks/useSpeech.jsx:183 | trimming the front keeps a suffix that starts with a non-whitespace character and drops only whitespace |
| `Text.TrimEndSpec` | src/hooks/useSpeech.jsx:183 | trimming the back keeps a prefix that ends with a non-whitespace character and drops only whitespace |
| `Text.Trim` | src/components/ChatInterface.jsx:47 | neither end of a trimmed string is whitespace |
| `Text.TrimIsSlice` | src/components/ChatInterface.jsx:47 | the trimmed text is the slice of the input between two whitespace runs |
| `Text.TrimEmptyIff` | src/hooks/useSpeech.jsx:183 | `!text.trim()` holds exactly when the text is whitespace only |
| `Text.TrimKeepsTrimmed` | src/components/ChatInterface.jsx:47 | a string with non-whitespace ends is its own trim |
| `Text.TrimIdempotent` | src/components/ChatInterface.jsx:56 | trimming twice is trimming once, so `tts` never rejects the text the chat surface already trimmed |
| `Replies.FallbackLipsync` | src/hooks/useSpeech.jsx:164-179 | the fallback is `fallback.wav`, duration 3.0, six cues of 0.5 s tiling [0, 3.0] without gap or overlap, values A B C A B X |
| `Replies.RepairLipsync` | src/hooks/useSpeech.jsx:136-147 | the lipsync is never null: kept when it carries `mouthCues`, the fallback when missing or without cues |
| `Replies.RepairAudio` | src/hooks/useSpeech.jsx:123-134 | audio is kept or nulled; audio that survives is valid base64; it is nulled only when it is invalid |
| `Replies.Normalise` | src/hooks/useSpeech.jsx:142-148 | text, expression and animation are the reply's when truthy, else "Response tidak tersedia", "default", "Sad"; never empty; audio and lipsync repaired |
| `Replies.ProcessResponseMessages` | src/hooks/useSpeech.jsx:119-150 | one output per reply, same length and order, the k-th output is the k-th reply normalised |
| `Replies.ProcessAppend` | src/hooks/useSpeech.jsx:119-120 | processing is per message: two batches processed apart give the concatenation processed together |
| `Replies.NormaliseFixesWellFormed` | src/hooks/useSpeech.jsx:142-148 | a queued message normalised again is unchanged exactly when it is well formed |
| `Replies.NormaliseIdempotent` | src/hooks/useSpeech.jsx:119-149 | normalising a normalised reply changes nothing |
| `Replies.ProcessedWellFormed` | src/hooks/useSpeech.jsx:119-149 | every processed message has text, tags, valid-or-absent audio and lipsync with cues |
| `Replies.ByteArrayOf` | src/hooks/useSpeech.jsx:153-160 | the loop copies every character code into the byte array, kept modulo 256 as `Uint8Array` does |
| `Replies.Latin1RoundTrip` | src/hooks/useSpeech.jsx:154-159 | for `atob` output (codes below 256) the byte copy loses nothing |
| `Speech.Apology` | src/hooks/useSpeech.jsx:61-73 | a failure message has the path's apology text, "sad", "Sad", no audio; null lipsync on the audio path (these lines), the fallback lipsync on the text path (the literal at src/hooks/useSpeech.jsx lines 216-228) |
| `Speech.Answered` | src/hooks/useSpeech.jsx:212-228 | reference definition of what a 2xx answer queues: the processed replies when `messages` is present; the apology when it is missing, because `.map` of `undefined` throws into the catch block; its properties are `AnsweredEmptyIff` and `AnsweredHaveText` |
| `Speech.AnsweredEmptyIff` | src/hooks/useSpeech.jsx:213-215 | a 2xx answer queues nothing exactly when its `messages` list is empty |
| `Speech.AnsweredHaveText` | src/hooks/useSpeech.jsx:142-143 | every message a completion queues has non-empty text |
| `Speech.Head` | src/hooks/useSpeech.jsx:240-248 | reference definition of the current message (null for an empty queue, else its first entry), used by `Session.Valid` so that every transition keeps `message` equal to the head of the queue |
| `Speech.Session.constructor` | src/hooks/useSpeech.jsx:8-15 | not recording, no recorder, empty queue, no current message, not loading, no session id |
| `Speech.Session.AcquireMicrophone` | src/hooks/useSpeech.jsx:81-102 | a recorder exists once `getUserMedia` succeeds; a refusal leaves none |
| `Speech.Session.GenerateInitialSession` | src/hooks/useSpeech.jsx:251-257 | a fresh id is set only when there is no (truthy) id |
| `Speech.Session.UpdateCurrentMessage` | src/hooks/useSpeech.jsx:240-248 | the current message becomes the head of the queue, or null |
| `Speech.Session.Tts` | src/hooks/useSpeech.jsx:182-199 | while loading or for blank text nothing changes; otherwise loading is set and one text request with the untrimmed text and the session id is sent; the queue is untouched |
| `Speech.Session.SendAudioData` | src/hooks/useSpeech.jsx:25-44 | sets loading and sends one audio request, without looking at `loading` |
| `Speech.Session.AdoptSession` | src/hooks/useSpeech.jsx:208-211 | the session id becomes the answer's; an equal id leaves the state untouched |
| `Speech.Session.Enqueue` | src/hooks/useSpeech.jsx:214-215 | the batch goes behind the queued messages, which stay as they were |
| `Speech.Session.Settle` | src/hooks/useSpeech.jsx:229-231 | loading ends and the answered request leaves the pending list |
| `Speech.Session.CompleteSuccess` | src/hooks/useSpeech.jsx:200-231 | session id adopted, then `Answered` appended in order after the existing queue (the processed replies, or the apology when the answer has no `messages`), loading false, the played history kept |
| `Speech.Session.CompleteFailure` | src/hooks/useSpeech.jsx:216-231 | exactly one apology appended, existing entries untouched, loading false |
| `Speech.Session.OnMessagePlayed` | src/hooks/useSpeech.jsx:234-237 | exactly the head is removed and recorded as played (nothing happens on an empty queue) |
| `Speech.Session.StartRecording` | src/hooks/useSpeech.jsx:104-109 | recording starts only with a recorder, not loading and no current message |
| `Speech.Session.StopRecording` | src/hooks/useSpeech.jsx:111-116 | afterwards the session is not recording |
| `Speech.Session.InitiateRecording` | src/hooks/useSpeech.jsx:17-19 | the chunk buffer is emptied when recording starts |
| `Speech.Session.OnDataAvailable` | src/hooks/useSpeech.jsx:21-23 | the buffer grows by exactly the new chunk at its end |
| `Speech.Session.OnRecorderStop` | src/hooks/useSpeech.jsx:89-92 | the blob is as long as all buffered chunks together, and chunk k sits in it at the offset of the chunks before it, so the chunks appear whole and in recording order |
| `Speech.ConcatLength` | src/hooks/useSpeech.jsx:90 | the blob of the chunks has exactly their total length |
| `Speech.ConcatPlaces` | src/hooks/useSpeech.jsx:90 | each chunk occupies the slice of the blob that starts after the chunks recorded before it |
| `Bubble.SpeechBubble.constructor` | src/components/SpeechBubble.jsx:11-12 | nothing displayed, not typing, no interval |
| `Bubble.SpeechBubble.RunEffect` | src/components/SpeechBubble.jsx:16-33 | after clearing the old interval: a hidden or empty bubble is blank and idle; otherwise typing starts from "" with i = 0 |
| `Bubble.SpeechBubble.Render` | src/components/SpeechBubble.jsx:46 | the effect reruns exactly when `message`, `isVisible` or `onTypingComplete` changed, else the reveal is untouched |
| `Bubble.SpeechBubble.Tick` | src/components/SpeechBubble.jsx:34-43 | corrected tick (the character read before the increment): a tick with i < length appends `message[i]` and increments i; the next stops the interval, clears `isTyping` and calls `onTypingComplete` once, with the whole text shown |
| `Bubble.TypeOutAsWritten` | src/components/SpeechBubble.jsx:34-43 | the reveal with each updater applied after `i++`: tick j appends `charAt(j + 1)`, and the interval completes once with the message minus its first character on screen |
| `Bubble.LateReadDropsFirst` | src/components/SpeechBubble.jsx:36-37 | with the late read, after k ticks the bubble holds characters 1 to k of the message |
| `Bubble.LateReadShowsHiAsI` | src/components/SpeechBubble.jsx:36-37 | with the late read, no non-empty message is ever shown whole, and "Hi" ends as "i" |
| `Bubble.SpeechBubble.TypeOut` | src/components/SpeechBubble.jsx:34-43 | with the corrected tick, the interval clears itself after length - i appending ticks and one completing tick, leaving the full text and one completion call |
| `Bubble.SpeechBubble.Unmount` | src/components/SpeechBubble.jsx:45 | the cleanup stops the interval |
| `Bubble.SpeechBubble.Rendered` | src/components/SpeechBubble.jsx:48-51 | nothing is rendered exactly when not visible; otherwise a prefix of the message |
| `Chat.ChatInterface.constructor` | src/components/ChatInterface.jsx:7-11 | empty input, bubble hidden and empty, no dwell timer |
| `Chat.ChatInterface.BubbleVisible` | src/components/ChatInterface.jsx:128 | reference definition of the bubble's `isVisible` prop (switched on and non-empty), used by the lifecycle contracts of `OnMessageChange`, `OnDwellTimeout` and `HideBubble` |
| `Chat.ChatInterface.SendDisabled` | src/components/ChatInterface.jsx:192 | the send button is disabled exactly when `handleSendMessage` would not send |
| `Chat.ChatInterface.RecordDisabled` | src/components/ChatInterface.jsx:159 | the record button is disabled exactly when `handleRecordClick` would ignore a click |
| `Chat.ChatInterface.OnChange` | src/components/ChatInterface.jsx:184 | the input holds the typed text |
| `Chat.ChatInterface.OnMessageChange` | src/components/ChatInterface.jsx:24-43 | a current message's text is shown in a visible bubble and any dwell timer is replaced by one fresh timer |
| `Chat.ChatInterface.OnDwellTimeout` | src/components/ChatInterface.jsx:36-39 | the armed dwell timer hides and empties the bubble; a cleared timer does nothing |
| `Chat.ChatInterface.HideBubble` | src/components/ChatInterface.jsx:49-54 | bubble hidden, emptied, dwell timer cancelled |
| `Chat.ChatInterface.HandleSendMessage` | src/components/ChatInterface.jsx:46-62 | sends only when not loading, no current message and non-blank input; then hides the bubble, cancels the timer, sends the trimmed text and clears the input; otherwise nothing changes |
| `Chat.ChatInterface.HandleKeyPress` | src/components/ChatInterface.jsx:77-82 | Enter without Shift prevents the default and does exactly what `HandleSendMessage` does: when it sends, the bubble is hidden, its timer cancelled, the trimmed text sent and the input cleared; otherwise, and for any other key, nothing changes |
| `Chat.ChatInterface.HandleRecordClick` | src/components/ChatInterface.jsx:84-92 | ignored while loading or playing; otherwise stops a recording or starts one when a recorder exists |
| `Chat.ChatInterface.Unmount` | src/components/ChatInterface.jsx:65-71 | no dwell timer stays armed |
| `Chat.ChatInterface.Render` | src/components/ChatInterface.jsx:126-131 | with a memoised callback a render with unchanged text and visibility leaves the reveal alone |
| `Chat.ChatInterface.RenderAsWritten` | src/components/ChatInterface.jsx:94-98 | with a fresh callback every render the bubble is blanked and typing restarts |
| `Exchange.HaloExchange` | src/hooks/useSpeech.jsx:182-215 | sending "halo" then an answer with id "abc" and reply "Hi" sends one text request, adopts "abc" and makes "Hi" current with "default", "Sad" and the fallback lipsync |
| `Exchange.RerenderAfterReveal` | src/components/ChatInterface.jsx:94-98 | after a full reveal and the end of playback, a re-render keeps the text with a memoised callback and blanks it as the source is written |

## Findings

| source | as written | input that shows it | evidently intended | confidence | as-written member | corrected member |
|---|---|---|---|---|---|---|
| src/components/ChatInterface.jsx:94-98 | `onSpeechBubbleComplete` is a new closure on every render and is a dependency of the bubble's typewriter effect (src/components/SpeechBubble.jsx:46), so every re-render of the chat surface restarts the reveal and calls `onTypingComplete` again | reply "Hi" fully typed, then playback ends (the provider's state change re-renders the chat surface) or the user types a key | a finished bubble keeps its text until its text or visibility changes | medium; not executed | `Chat.ChatInterface.RenderAsWritten` | `Chat.ChatInterface.Render` |
| src/components/SpeechBubble.jsx:36-37 | the updater `(prev) => prev + message.charAt(i)` is queued and `i++` runs right after it; when React applies the updater during the next render, it reads the incremented `i`, so tick j appends `charAt(j + 1)` | reply "Hi": the bubble shows "i" and `onTypingComplete` is called with "i" on screen | read the character before the increment (`const ch = message.charAt(i)`), so the whole message is revealed | low to medium: React 18 may instead evaluate an updater eagerly, at the call, when the component has no pending update, and then the character is the intended one; not executed | `Bubble.TypeOutAsWritten` | `Bubble.SpeechBubble.Tick` |

## Left out

- HTTP, `fetch` and JSON: a request is a `Speech.Request` value, a 2xx answer whose body parsed as an object is a `Speech.Response`, and every other outcome is the event `CompleteFailure`. A body that is not an object, or a `null` entry in `messages` (both throw and reach the failure path), is not modelled.
- `atob`, `FileReader`, `Blob` and `URL.createObjectURL`: `atob`'s verdict is the function `isBase64` given to the session; the base64 text of a recording is the argument of `SendAudioData`.
- `MediaRecorder` and `getUserMedia`: the recorder is a flag set once by `AcquireMicrophone`; its own state (calling `start()` on an active recorder throws) is not modelled.
- `crypto.randomUUID`: the fresh id is a parameter of `GenerateInitialSession`.
- Timers: the 50 ms interval and the dwell timeout are events (`Tick`, `OnDwellTimeout`); the dwell length (100000 ms, against an in-code comment that says eight seconds) is the unused constant `dwell`.
- React scheduling: effects run at the end of the event that triggers them (`UpdateCurrentMessage`), renders are the explicit calls `Render` / `RenderAsWritten`, and events are sequential.
- Speech.Session.SendAudioData: sends the session id current at the time; in the source the recorder's `onstop` handler is bound once at mount, so its `sendAudioData` sees the first render's id (`null`), and the model does not capture that stale closure.
- `processResponseMessages` writes the repaired audio and lipsync back into the parsed reply objects; those objects are dropped afterwards, so the model works on values.
- Bubble.SpeechBubble.Tick: reads the character before the increment (the corrected reveal of the second finding); which character the source shows depends on when React evaluates the queued updater, and `Bubble.TypeOutAsWritten` models the late evaluation.
- UTF-16: a string is a sequence of Unicode code points, whereas `length`, `charAt` and `charCodeAt` count and index UTF-16 code units; for a reply with a character outside the Basic Multilingual Plane (an emoji) the source takes one more tick per such character and briefly shows a lone surrogate, which the model does not capture.
- The `hidden` prop of `ChatInterface`: when set, the surface renders nothing and no bubble is mounted; the model always renders the surface.
- `null` and `undefined` are both `None`; reply fields that are neither strings nor absent are not modelled.
- Rendering: JSX, CSS classes, icons, the status header, the typing caret and the bubble's `position` and `className` props; `console` logging and `alert`.
- src/App.jsx and src/components/Scenario.jsx: composition over the external 3D engine, with no local logic.
