/** The conversation state shared by the whole page (`SpeechProvider` in
    src/hooks/useSpeech.jsx): the request lifecycle, the playback queue,
    the session id and the recording buffer. Each `fetch` is split into the
    event that sends it and the event that answers it. */
module Speech {
  import opened Wrappers
  import opened Text
  import opened Replies

  /** A request sent to the chat endpoint (its JSON body). */
  datatype Request =
    | TextRequest(message: string, sessionUuid: Option<string>)
    | AudioRequest(audioData: string, sessionUuid: Option<string>)

  /** A 2xx answer whose body parsed as a JSON object; `messages` is `None`
      when the field is missing. */
  datatype Response = Response(sessionUuid: Option<string>, messages: Option<seq<RawMessage>>)

  const TEXT_APOLOGY := "Maaf, terjadi kesalahan saat memproses pesan. Silakan coba lagi."
  const AUDIO_APOLOGY := "Maaf, terjadi kesalahan saat memproses audio. Silakan coba lagi."

  /** The single message queued when a request fails. */
  function Apology(req: Request): (m: Message)
    ensures m.text != "" && m.facialExpression == "sad" && m.animation == "Sad" && m.audio == None
    ensures req.TextRequest? ==> m.text == TEXT_APOLOGY && m.lipsync == Some(FallbackLipsync())
    ensures req.AudioRequest? ==> m.text == AUDIO_APOLOGY && m.lipsync == None
  {
    match req
    case TextRequest(_, _) => Message(TEXT_APOLOGY, "sad", "Sad", None, Some(FallbackLipsync()))
    case AudioRequest(_, _) => Message(AUDIO_APOLOGY, "sad", "Sad", None, None)
  }

  /** What a 2xx answer appends to the queue. A body without `messages`
      makes `.map` throw, and the catch block appends the apology. */
  function Answered(req: Request, resp: Response, isBase64: string -> bool): seq<Message> {
    if resp.messages.Some? then ProcessResponseMessages(resp.messages.value, isBase64) else [Apology(req)]
  }

  /** An answer queues nothing only when the backend sent an empty list. */
  lemma AnsweredEmptyIff(req: Request, resp: Response, isBase64: string -> bool)
    ensures Answered(req, resp, isBase64) == [] <==> resp.messages == Some([])
  {
    if resp.messages.Some? && resp.messages.value != [] {
      assert |Answered(req, resp, isBase64)| == |resp.messages.value|;
    }
  }

  /** Every message a completion queues has text, so the chat surface
      always shows a bubble for it. */
  lemma AnsweredHaveText(req: Request, resp: Response, isBase64: string -> bool)
    ensures forall m :: m in Answered(req, resp, isBase64) ==> m.text != ""
  {
    if resp.messages.Some? {
      ProcessedWellFormed(resp.messages.value, isBase64);
    }
  }

  lemma AppendKeepsText(q: seq<Message>, batch: seq<Message>)
    requires forall m :: m in q ==> m.text != ""
    requires forall m :: m in batch ==> m.text != ""
    ensures forall m :: m in q + batch ==> m.text != ""
  {
  }

  /** The message being played: the head of the queue, or null. */
  function Head(q: seq<Message>): (m: Option<Message>)
    ensures m.None? <==> q == []
    ensures m.Some? ==> m.value == q[0]
  {
    if q == [] then None else Some(q[0])
  }

  /** The bytes of the `Blob` built from the recorded chunks. */
  function Concat(chunks: seq<seq<bv8>>): seq<bv8> {
    if chunks == [] then [] else Concat(chunks[..|chunks| - 1]) + chunks[|chunks| - 1]
  }

  /** The number of bytes in all the chunks together. */
  function TotalLength(chunks: seq<seq<bv8>>): nat {
    if chunks == [] then 0 else TotalLength(chunks[..|chunks| - 1]) + |chunks[|chunks| - 1]|
  }

  /** The blob is exactly as long as the chunks together. */
  lemma {:induction false} ConcatLength(chunks: seq<seq<bv8>>)
    ensures |Concat(chunks)| == TotalLength(chunks)
  {
    if chunks != [] {
      ConcatLength(chunks[..|chunks| - 1]);
    }
  }

  /** Chunk `k` sits in the blob right after the chunks recorded before it. */
  lemma {:induction false} ConcatPlaces(chunks: seq<seq<bv8>>, k: nat)
    requires k < |chunks|
    ensures TotalLength(chunks[..k]) + |chunks[k]| <= |Concat(chunks)|
    ensures Concat(chunks)[TotalLength(chunks[..k])..TotalLength(chunks[..k]) + |chunks[k]|] == chunks[k]
  {
    var n := |chunks| - 1;
    var init := chunks[..n];
    var front := Concat(init);
    assert Concat(chunks) == front + chunks[n];
    ConcatLength(init);
    if k == n {
      assert chunks[..k] == init;
      assert (front + chunks[n])[|front|..|front| + |chunks[n]|] == chunks[n];
    } else {
      assert init[..k] == chunks[..k];
      assert init[k] == chunks[k];
      ConcatPlaces(init, k);
      var lo := TotalLength(chunks[..k]);
      assert (front + chunks[n])[lo..lo + |chunks[k]|] == front[lo..lo + |chunks[k]|];
    }
  }

  class Session {
    /** `atob`'s verdict on a base64 string (it throws when false). */
    const isBase64: string -> bool

    var recorderReady: bool
    var recording: bool
    var chunks: seq<seq<bv8>>
    var loading: bool
    var messages: seq<Message>
    var message: Option<Message>
    var sessionUUID: Option<string>
    /** Requests sent and not yet answered. */
    var pending: seq<Request>

    /** Every message ever queued, and those already played. */
    ghost var received: seq<Message>
    ghost var played: seq<Message>

    ghost predicate Valid()
      reads this
    {
      message == Head(messages)
      && received == played + messages
      && (forall m :: m in messages ==> m.text != "")
      && (recording ==> recorderReady)
    }

    constructor (isBase64: string -> bool)
      ensures Valid() && this.isBase64 == isBase64
      ensures !recorderReady && !recording && chunks == [] && !loading
      ensures messages == [] && message == None && sessionUUID == None && pending == []
      ensures received == [] && played == []
    {
      this.isBase64 := isBase64;
      recorderReady, recording, chunks, loading := false, false, [], false;
      messages, message, sessionUUID, pending := [], None, None, [];
      received, played := [], [];
    }

    /** The mount effect that asks for the microphone; `granted` says
        whether `getUserMedia` resolved. A refusal leaves no recorder. */
    method AcquireMicrophone(granted: bool)
      requires Valid()
      modifies this`recorderReady
      ensures Valid()
      ensures recorderReady == (old(recorderReady) || granted)
    {
      if granted {
        recorderReady := true;
      }
    }

    /** The mount effect that creates a session id when there is none. */
    method GenerateInitialSession(uuid: string)
      requires Valid()
      modifies this`sessionUUID
      ensures Valid()
      ensures Truthy(old(sessionUUID)) ==> sessionUUID == old(sessionUUID)
      ensures !Truthy(old(sessionUUID)) ==> sessionUUID == Some(uuid)
    {
      if !Truthy(sessionUUID) {
        sessionUUID := Some(uuid);
      }
    }

    /** The effect that makes the head of the queue the current message. */
    method UpdateCurrentMessage()
      modifies this`message
      ensures message == Head(messages)
    {
      if |messages| > 0 {
        message := Some(messages[0]);
      } else {
        message := None;
      }
    }

    /** `tts(text)`: sends the text unless a request is loading or the text
        is blank; the queue is left alone either way. */
    method Tts(text: string)
      requires Valid()
      modifies this`loading, this`pending
      ensures Valid() && messages == old(messages)
      ensures old(loading) || Trim(text) == [] ==> loading == old(loading) && pending == old(pending)
      ensures !old(loading) && Trim(text) != [] ==>
                loading && pending == old(pending) + [TextRequest(text, sessionUUID)]
    {
      if loading || Trim(text) == [] {
        return;
      }
      loading := true;
      pending := pending + [TextRequest(text, sessionUUID)];
    }

    /** The `onloadend` step of `sendAudioData`: the recording, base64
        encoded, is sent. It does not look at `loading`. */
    method SendAudioData(base64Audio: string)
      requires Valid()
      modifies this`loading, this`pending
      ensures Valid() && messages == old(messages)
      ensures loading && pending == old(pending) + [AudioRequest(base64Audio, sessionUUID)]
    {
      loading := true;
      pending := pending + [AudioRequest(base64Audio, sessionUUID)];
    }

    /** Adopts the session id of an answer when it differs from ours. */
    method AdoptSession(id: Option<string>)
      requires Valid()
      modifies this`sessionUUID
      ensures Valid() && sessionUUID == id
      ensures old(sessionUUID) == id ==> unchanged(this)
    {
      if id != sessionUUID {
        sessionUUID := id;
      }
    }

    /** Appends a batch behind the messages already queued. */
    method Enqueue(batch: seq<Message>)
      requires Valid()
      requires forall m :: m in batch ==> m.text != ""
      modifies this`messages, this`message, this`received
      ensures Valid()
      ensures messages == old(messages) + batch && received == old(received) + batch
    {
      AppendKeepsText(messages, batch);
      messages := messages + batch;
      received := received + batch;
      UpdateCurrentMessage();
    }

    /** The `finally` block: the answered request leaves the pending list
        and loading ends. */
    method Settle(k: nat)
      requires Valid() && k < |pending|
      modifies this`loading, this`pending
      ensures Valid()
      ensures !loading && pending == old(pending[..k] + pending[k + 1..])
    {
      loading := false;
      pending := pending[..k] + pending[k + 1..];
    }

    /** A 2xx answer to the `k`-th pending request: the session id is
        adopted when it differs, the replies are appended after the
        messages already queued, and loading ends. */
    method CompleteSuccess(k: nat, resp: Response)
      requires Valid() && k < |pending|
      modifies this`sessionUUID, this`messages, this`message, this`loading, this`pending, this`received
      ensures Valid()
      ensures sessionUUID == resp.sessionUuid
      ensures messages == old(messages) + Answered(old(pending[k]), resp, isBase64)
      ensures !loading && pending == old(pending[..k] + pending[k + 1..])
      ensures played == old(played)
    {
      var req := pending[k];
      AdoptSession(resp.sessionUuid);
      AnsweredHaveText(req, resp, isBase64);
      Enqueue(Answered(req, resp, isBase64));
      Settle(k);
    }

    /** A failed request (network error, non-2xx status, bad JSON): exactly
        one apology is appended and loading ends. */
    method CompleteFailure(k: nat)
      requires Valid() && k < |pending|
      modifies this`messages, this`message, this`loading, this`pending, this`received
      ensures Valid()
      ensures messages == old(messages) + [Apology(old(pending[k]))]
      ensures !loading && pending == old(pending[..k] + pending[k + 1..])
      ensures played == old(played)
    {
      Enqueue([Apology(pending[k])]);
      Settle(k);
    }

    /** `onMessagePlayed`: the head of the queue is dropped and the next
        message, if any, becomes current. */
    method OnMessagePlayed()
      requires Valid()
      modifies this`messages, this`message, this`played
      ensures Valid()
      ensures old(messages) == [] ==> messages == [] && played == old(played)
      ensures old(messages) != [] ==> messages == old(messages[1..]) && played == old(played) + [old(messages[0])]
      ensures received == old(received)
    {
      if messages != [] {
        played := played + [messages[0]];
        messages := messages[1..];
      }
      UpdateCurrentMessage();
    }

    /** `startRecording`: only with a recorder, nothing loading and nothing
        playing. */
    method StartRecording()
      requires Valid()
      modifies this`recording
      ensures Valid()
      ensures recorderReady && !loading && message == None ==> recording
      ensures !(recorderReady && !loading && message == None) ==> recording == old(recording)
    {
      if recorderReady && !loading && message == None {
        recording := true;
      }
    }

    /** `stopRecording`: only while recording. */
    method StopRecording()
      requires Valid()
      modifies this`recording
      ensures Valid()
      ensures !recording
    {
      if recorderReady && recording {
        recording := false;
      }
    }

    /** The recorder's `onstart` handler: a fresh chunk buffer. */
    method InitiateRecording()
      requires Valid()
      modifies this`chunks
      ensures Valid() && chunks == []
    {
      chunks := [];
    }

    /** The recorder's `ondataavailable` handler. */
    method OnDataAvailable(data: seq<bv8>)
      requires Valid()
      modifies this`chunks
      ensures Valid() && chunks == old(chunks) + [data]
    {
      chunks := chunks + [data];
    }

    /** The recorder's `onstop` handler builds one blob of every chunk in
        order; reading it as base64 and calling `SendAudioData` follow. */
    method OnRecorderStop() returns (audioBlob: seq<bv8>)
      requires Valid()
      ensures |audioBlob| == TotalLength(chunks)
      ensures forall k :: 0 <= k < |chunks| ==>
                TotalLength(chunks[..k]) + |chunks[k]| <= |audioBlob|
                && audioBlob[TotalLength(chunks[..k])..TotalLength(chunks[..k]) + |chunks[k]|] == chunks[k]
    {
      audioBlob := Concat(chunks);
      ConcatLength(chunks);
      forall k | 0 <= k < |chunks|
        ensures TotalLength(chunks[..k]) + |chunks[k]| <= |audioBlob|
        ensures audioBlob[TotalLength(chunks[..k])..TotalLength(chunks[..k]) + |chunks[k]|] == chunks[k]
      {
        ConcatPlaces(chunks, k);
      }
    }
  }
}
