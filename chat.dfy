/** The chat surface (src/components/ChatInterface.jsx): the input box, the
    send and record buttons, and the speech bubble with its dwell timer.
    Timers are named by the ids `setTimeout` hands out; `armed` holds those
    scheduled and neither cleared nor fired, and `OnDwellTimeout(t)` is
    timer `t` firing. A render of the surface passes the bubble its props
    (`Render`). */
module Chat {
  import opened Wrappers
  import opened Text
  import opened Replies
  import Speech
  import Bubble

  /** The identity of a memoised `onTypingComplete` callback. */
  const STABLE_HANDLER: nat := 0

  /** The guard of `handleSendMessage`. */
  predicate CanSend(loading: bool, message: Option<Message>, inputText: string) {
    !loading && message.None? && Trim(inputText) != []
  }

  /** The guard of `handleRecordClick`: a click acts only with nothing
      loading and nothing playing. */
  predicate RecordClickActs(loading: bool, message: Option<Message>) {
    !loading && message.None?
  }

  class ChatInterface {
    const speech: Speech.Session
    const bubble: Bubble.SpeechBubble
    /** The time a bubble stays up, in milliseconds (100000 in the source). */
    const dwell: nat

    var inputText: string
    var showSpeechBubble: bool
    var speechBubbleText: string
    var bubbleTimer: Option<nat>
    var armed: set<nat>
    var nextTimer: nat
    /** Renders so far; a callback created during render number `n` has identity `n`. */
    var renders: nat

    ghost predicate Valid()
      reads this, speech, bubble
    {
      speech.Valid() && bubble.Valid()
      && armed <= (if bubbleTimer.Some? then {bubbleTimer.value} else {})
      && (bubbleTimer.Some? ==> 0 < bubbleTimer.value < nextTimer)
      && 0 < nextTimer
      && bubble.onTypingComplete <= renders
    }

    constructor (speech: Speech.Session, bubble: Bubble.SpeechBubble, dwell: nat)
      requires speech.Valid() && bubble.Valid() && bubble.onTypingComplete == STABLE_HANDLER
      ensures Valid() && this.speech == speech && this.bubble == bubble && this.dwell == dwell
      ensures inputText == [] && !showSpeechBubble && speechBubbleText == []
      ensures bubbleTimer == None && armed == {}
    {
      this.speech, this.bubble, this.dwell := speech, bubble, dwell;
      inputText, showSpeechBubble, speechBubbleText := [], false, [];
      bubbleTimer, armed, nextTimer, renders := None, {}, 1, 0;
    }

    /** The `isVisible` prop of the bubble: it is never shown empty, and
        a hidden bubble stays hidden whatever its text. */
    function BubbleVisible(): (r: bool)
      reads this
      ensures r ==> speechBubbleText != []
      ensures !showSpeechBubble ==> !r
      ensures showSpeechBubble && speechBubbleText != [] ==> r
    {
      showSpeechBubble && speechBubbleText != []
    }

    /** The send button is disabled exactly when a click would not send. */
    function SendDisabled(): (r: bool)
      reads this, speech
      ensures r <==> !CanSend(speech.loading, speech.message, inputText)
    {
      speech.loading || speech.message.Some? || Trim(inputText) == []
    }

    /** The record button (and the text box) is disabled exactly when a
        click would be ignored. */
    function RecordDisabled(): (r: bool)
      reads this, speech
      ensures r <==> !RecordClickActs(speech.loading, speech.message)
    {
      speech.loading || speech.message.Some?
    }

    /** `onChange` of the text box. */
    method OnChange(text: string)
      requires Valid()
      modifies this`inputText
      ensures Valid() && inputText == text
    {
      inputText := text;
    }

    /** The effect on a new current message: show its text and replace any
        dwell timer by one fresh timer. Every queued message has text, so
        a current message always shows. */
    method OnMessageChange()
      requires Valid()
      modifies this`speechBubbleText, this`showSpeechBubble, this`bubbleTimer, this`armed, this`nextTimer
      ensures Valid()
      ensures speech.message.Some? ==>
                speechBubbleText == speech.message.value.text && showSpeechBubble && BubbleVisible()
                && bubbleTimer.Some? && armed == {bubbleTimer.value} && bubbleTimer.value !in old(armed)
      ensures speech.message.None? ==> unchanged(this)
    {
      var message := speech.message;
      if message.Some? {
        assert message.value == speech.messages[0];
      }
      if message.Some? && message.value.text != [] {
        speechBubbleText := message.value.text;
        showSpeechBubble := true;
        if bubbleTimer.Some? {
          armed := armed - {bubbleTimer.value};
        }
        var timer := nextTimer;
        nextTimer := nextTimer + 1;
        armed := armed + {timer};
        bubbleTimer := Some(timer);
      }
    }

    /** Timer `t` fires: if it is still armed, the bubble goes away. */
    method OnDwellTimeout(t: nat)
      requires Valid()
      modifies this`showSpeechBubble, this`speechBubbleText, this`armed
      ensures Valid()
      ensures t in old(armed) ==>
                !showSpeechBubble && speechBubbleText == [] && !BubbleVisible() && armed == old(armed) - {t}
      ensures t !in old(armed) ==> unchanged(this)
    {
      if t in armed {
        showSpeechBubble := false;
        speechBubbleText := [];
        armed := armed - {t};
      }
    }

    /** Hides the bubble, empties it and cancels its dwell timer. */
    method HideBubble()
      requires Valid()
      modifies this`showSpeechBubble, this`speechBubbleText, this`armed
      ensures Valid()
      ensures !showSpeechBubble && speechBubbleText == [] && !BubbleVisible() && armed == {}
    {
      showSpeechBubble := false;
      speechBubbleText := [];
      if bubbleTimer.Some? {
        armed := armed - {bubbleTimer.value};
      }
    }

    /** `handleSendMessage`: with nothing loading, nothing playing and a
        non-blank input, hide the bubble, cancel its timer, send the
        trimmed text and empty the input; otherwise do nothing. */
    method HandleSendMessage()
      requires Valid()
      modifies this`showSpeechBubble, this`speechBubbleText, this`armed, this`inputText
      modifies speech`loading, speech`pending
      ensures Valid()
      ensures CanSend(old(speech.loading), old(speech.message), old(inputText)) ==>
                !showSpeechBubble && speechBubbleText == [] && armed == {} && inputText == []
                && speech.loading
                && speech.pending == old(speech.pending) + [Speech.TextRequest(Trim(old(inputText)), speech.sessionUUID)]
      ensures !CanSend(old(speech.loading), old(speech.message), old(inputText)) ==>
                showSpeechBubble == old(showSpeechBubble) && speechBubbleText == old(speechBubbleText)
                && armed == old(armed) && inputText == old(inputText)
                && speech.loading == old(speech.loading) && speech.pending == old(speech.pending)
    {
      var text := Trim(inputText);
      if !speech.loading && speech.message.None? && text != [] {
        HideBubble();
        TrimIdempotent(inputText);
        speech.Tts(text);
        inputText := [];
      }
    }

    /** `handleKeyPress`: Enter without Shift sends (and suppresses the
        newline); any other key is left to the text box. */
    method HandleKeyPress(key: string, shiftKey: bool) returns (preventDefault: bool)
      requires Valid()
      modifies this`showSpeechBubble, this`speechBubbleText, this`armed, this`inputText
      modifies speech`loading, speech`pending
      ensures Valid()
      ensures preventDefault <==> key == "Enter" && !shiftKey
      ensures !(preventDefault && CanSend(old(speech.loading), old(speech.message), old(inputText))) ==>
                showSpeechBubble == old(showSpeechBubble) && speechBubbleText == old(speechBubbleText)
                && armed == old(armed) && inputText == old(inputText)
                && speech.loading == old(speech.loading) && speech.pending == old(speech.pending)
      ensures preventDefault && CanSend(old(speech.loading), old(speech.message), old(inputText)) ==>
                !showSpeechBubble && speechBubbleText == [] && armed == {} && inputText == []
                && speech.loading
                && speech.pending == old(speech.pending) + [Speech.TextRequest(Trim(old(inputText)), speech.sessionUUID)]
    {
      preventDefault := key == "Enter" && !shiftKey;
      if preventDefault {
        HandleSendMessage();
      }
    }

    /** `handleRecordClick`: ignored while loading or playing; otherwise
        stops a recording or starts one (if there is a recorder). */
    method HandleRecordClick()
      requires Valid()
      modifies speech`recording
      ensures Valid()
      ensures !RecordClickActs(old(speech.loading), old(speech.message)) ==> speech.recording == old(speech.recording)
      ensures RecordClickActs(old(speech.loading), old(speech.message)) ==>
                speech.recording == (!old(speech.recording) && speech.recorderReady)
    {
      if speech.loading || speech.message.Some? {
        return;
      }
      if speech.recording {
        speech.StopRecording();
      } else {
        speech.StartRecording();
      }
    }

    /** The cleanup effect on unmount clears the dwell timer. */
    method Unmount()
      requires Valid()
      modifies this`armed
      ensures Valid() && armed == {}
    {
      if bubbleTimer.Some? {
        armed := armed - {bubbleTimer.value};
      }
    }

    /** A render that hands the bubble a memoised `onTypingComplete`: the
        typewriter reruns only when the text or the visibility changed. */
    method Render()
      requires Valid()
      modifies bubble
      ensures Valid()
      ensures bubble.message == speechBubbleText && bubble.isVisible == BubbleVisible()
      ensures bubble.onTypingComplete == STABLE_HANDLER && bubble.mounted
      ensures !(old(bubble.mounted) && old(bubble.message) == speechBubbleText
              && old(bubble.isVisible) == BubbleVisible() && old(bubble.onTypingComplete) == STABLE_HANDLER) ==>
                bubble.displayText == [] && bubble.completions == 0 && bubble.isTyping == BubbleVisible()
      ensures old(bubble.mounted) && old(bubble.message) == speechBubbleText
              && old(bubble.isVisible) == BubbleVisible() && old(bubble.onTypingComplete) == STABLE_HANDLER ==>
                bubble.displayText == old(bubble.displayText) && bubble.isTyping == old(bubble.isTyping)
                && bubble.completions == old(bubble.completions)
    {
      bubble.Render(speechBubbleText, BubbleVisible(), STABLE_HANDLER);
    }

    /** A render as the source writes it: `onTypingComplete` is a new
        closure on every render, so the typewriter always reruns and a
        finished bubble starts typing again from the empty string. */
    method RenderAsWritten()
      requires Valid()
      modifies this`renders, bubble
      ensures Valid()
      ensures bubble.message == speechBubbleText && bubble.isVisible == BubbleVisible()
      ensures bubble.displayText == [] && bubble.completions == 0
      ensures bubble.isTyping == BubbleVisible()
    {
      renders := renders + 1;
      bubble.Render(speechBubbleText, BubbleVisible(), renders);
    }
  }
}

/** The exchange of a text message and the finding about the bubble's
    callback, played out on concrete values. */
module Exchange {
  import opened Wrappers
  import opened Replies
  import Text
  import Speech
  import Bubble
  import Chat

  /** The user sends "halo"; the backend answers with the session id "abc"
      and the single reply "Hi", which becomes the current message with the
      default expression and animation and the fallback lipsync. */
  method HaloExchange(isBase64: string -> bool)
    returns (sent: seq<Speech.Request>, session: Option<string>, current: Option<Message>)
    ensures sent == [Speech.TextRequest("halo", Some("u-1"))]
    ensures session == Some("abc")
    ensures current.Some? && current.value.text == "Hi"
    ensures current.value.facialExpression == "default" && current.value.animation == "Sad"
    ensures current.value.lipsync == Some(FallbackLipsync())
  {
    var speech := new Speech.Session(isBase64);
    speech.GenerateInitialSession("u-1");
    Text.TrimKeepsTrimmed("halo");
    speech.Tts("halo");
    sent := speech.pending;
    var reply := RawMessage(Some("Hi"), None, None, None, None);
    speech.CompleteSuccess(0, Speech.Response(Some("abc"), Some([reply])));
    session := speech.sessionUUID;
    current := speech.message;
  }

  /** The current message is shown and typed out in full (by the corrected
      tick, which reads each character before the increment); then playback
      ends and the surface renders again. With a memoised
      `onTypingComplete` the finished bubble keeps its text; with the fresh
      closure the source creates on every render it is blanked and typing
      starts over. */
  method RerenderAfterReveal(chat: Chat.ChatInterface, memoised: bool) returns (typed: string, afterRerender: string)
    requires chat.Valid() && |chat.speech.messages| == 1 && !chat.bubble.mounted
    modifies chat, chat.speech, chat.bubble
    ensures typed == old(chat.speech.messages[0].text) && typed != []
    ensures memoised ==> afterRerender == typed
    ensures !memoised ==> afterRerender == []
  {
    var bubble := chat.bubble;
    chat.OnMessageChange();
    if memoised { chat.Render(); } else { chat.RenderAsWritten(); }
    var _ := bubble.TypeOut();
    typed := bubble.displayText;
    chat.speech.OnMessagePlayed();
    chat.OnMessageChange();
    if memoised { chat.Render(); } else { chat.RenderAsWritten(); }
    afterRerender := bubble.displayText;
  }
}
