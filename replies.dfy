/** The reply messages of the chat backend and their normalisation before
    they are queued for playback (`processResponseMessages`,
    `createFallbackLipsync`, `base64ToBlob` in src/hooks/useSpeech.jsx). */
module Replies {
  import opened Wrappers

  /** One mouth shape held from `start` to `end` seconds. */
  datatype Cue = Cue(start: real, end: real, value: string)

  datatype Metadata = Metadata(soundFile: string, duration: real)

  /** A lipsync object; `mouthCues` is `None` when the field is absent. */
  datatype Lipsync = Lipsync(metadata: Option<Metadata>, mouthCues: Option<seq<Cue>>)

  /** A reply as the backend sends it: every field may be missing. */
  datatype RawMessage = RawMessage(
    text: Option<string>,
    facialExpression: Option<string>,
    animation: Option<string>,
    audio: Option<string>,
    lipsync: Option<Lipsync>)

  /** A reply as it is queued for playback. */
  datatype Message = Message(
    text: string,
    facialExpression: string,
    animation: string,
    audio: Option<string>,
    lipsync: Option<Lipsync>)

  const DEFAULT_TEXT := "Response tidak tersedia"
  const DEFAULT_EXPRESSION := "default"
  const DEFAULT_ANIMATION := "Sad"
  const HALF_SECOND: real := 0.5

  /** JavaScript truthiness of an optional string: present and non-empty. */
  predicate Truthy(o: Option<string>) {
    o.Some? && o.value != ""
  }

  /** `o || d` on an optional string. */
  function OrElse(o: Option<string>, d: string): string {
    if Truthy(o) then o.value else d
  }

  /** Cues that start at 0, follow one another without gap or overlap,
      each of positive length, and end at `duration`. */
  predicate Tiles(cues: seq<Cue>, duration: real) {
    |cues| > 0 && cues[0].start == 0.0 && cues[|cues| - 1].end == duration
    && (forall k :: 0 <= k < |cues| ==> cues[k].start < cues[k].end)
    && (forall k :: 0 <= k < |cues| - 1 ==> cues[k].end == cues[k + 1].start)
  }

  function Values(cues: seq<Cue>): (vs: seq<string>)
    ensures |vs| == |cues| && forall k :: 0 <= k < |cues| ==> vs[k] == cues[k].value
  {
    if cues == [] then [] else [cues[0].value] + Values(cues[1..])
  }

  /** `createFallbackLipsync()`: three seconds of half-second cues. */
  function FallbackLipsync(): (l: Lipsync)
    ensures l.metadata == Some(Metadata("fallback.wav", 3.0))
    ensures l.mouthCues.Some? && |l.mouthCues.value| == 6
    ensures Tiles(l.mouthCues.value, l.metadata.value.duration)
    ensures forall k :: 0 <= k < 6 ==> l.mouthCues.value[k].start == k as real * HALF_SECOND
    ensures forall k :: 0 <= k < 6 ==> l.mouthCues.value[k].end == l.mouthCues.value[k].start + HALF_SECOND
    ensures Values(l.mouthCues.value) == ["A", "B", "C", "A", "B", "X"]
  {
    Lipsync(
      Some(Metadata("fallback.wav", 3.0)),
      Some([Cue(0.0, 0.5, "A"), Cue(0.5, 1.0, "B"), Cue(1.0, 1.5, "C"),
            Cue(1.5, 2.0, "A"), Cue(2.0, 2.5, "B"), Cue(2.5, 3.0, "X")]))
  }

  /** The lipsync that playback receives: a lipsync carrying `mouthCues` is
      kept, a missing one or one without cues becomes the fallback. */
  function RepairLipsync(l: Option<Lipsync>): (r: Lipsync)
    ensures r.mouthCues.Some?
    ensures l.Some? && l.value.mouthCues.Some? ==> r == l.value
    ensures l.None? || l.value.mouthCues.None? ==> r == FallbackLipsync()
  {
    if l.Some? && l.value.mouthCues.Some? then l.value else FallbackLipsync()
  }

  /** The audio that playback receives: audio that `atob` rejects (the
      predicate `isBase64`) becomes null, anything else is kept. */
  function RepairAudio(a: Option<string>, isBase64: string -> bool): (r: Option<string>)
    ensures r == a || r == None
    ensures Truthy(r) ==> isBase64(r.value)
    ensures r == None ==> a == None || !isBase64(a.value)
  {
    if Truthy(a) && !isBase64(a.value) then None else a
  }

  /** One step of `processResponseMessages`'s `map`. */
  function Normalise(raw: RawMessage, isBase64: string -> bool): (m: Message)
    ensures m.text != "" && m.facialExpression != "" && m.animation != ""
    ensures Truthy(raw.text) ==> m.text == raw.text.value
    ensures !Truthy(raw.text) ==> m.text == DEFAULT_TEXT
    ensures Truthy(raw.facialExpression) ==> m.facialExpression == raw.facialExpression.value
    ensures !Truthy(raw.facialExpression) ==> m.facialExpression == DEFAULT_EXPRESSION
    ensures Truthy(raw.animation) ==> m.animation == raw.animation.value
    ensures !Truthy(raw.animation) ==> m.animation == DEFAULT_ANIMATION
    ensures m.audio == RepairAudio(raw.audio, isBase64)
    ensures m.lipsync == Some(RepairLipsync(raw.lipsync))
  {
    Message(
      OrElse(raw.text, DEFAULT_TEXT),
      OrElse(raw.facialExpression, DEFAULT_EXPRESSION),
      OrElse(raw.animation, DEFAULT_ANIMATION),
      RepairAudio(raw.audio, isBase64),
      Some(RepairLipsync(raw.lipsync)))
  }

  /** `processResponseMessages`: one queued message per reply, in order. */
  function ProcessResponseMessages(raws: seq<RawMessage>, isBase64: string -> bool): (ms: seq<Message>)
    ensures |ms| == |raws|
    ensures forall k :: 0 <= k < |raws| ==> ms[k] == Normalise(raws[k], isBase64)
  {
    if raws == [] then [] else [Normalise(raws[0], isBase64)] + ProcessResponseMessages(raws[1..], isBase64)
  }

  /** Processing two batches one after the other queues what processing
      their concatenation queues. */
  lemma ProcessAppend(a: seq<RawMessage>, b: seq<RawMessage>, isBase64: string -> bool)
    ensures ProcessResponseMessages(a + b, isBase64)
         == ProcessResponseMessages(a, isBase64) + ProcessResponseMessages(b, isBase64)
  {
    var l, r := ProcessResponseMessages(a + b, isBase64), ProcessResponseMessages(a, isBase64) + ProcessResponseMessages(b, isBase64);
    forall k | 0 <= k < |a + b| ensures l[k] == r[k] {
      if k < |a| { assert (a + b)[k] == a[k]; } else { assert (a + b)[k] == b[k - |a|]; }
    }
  }

  /** A queued message read back as a reply. */
  function AsRaw(m: Message): RawMessage {
    RawMessage(Some(m.text), Some(m.facialExpression), Some(m.animation), m.audio, m.lipsync)
  }

  /** A message that normalisation would leave as it is. */
  predicate WellFormed(m: Message, isBase64: string -> bool) {
    m.text != "" && m.facialExpression != "" && m.animation != ""
    && (Truthy(m.audio) ==> isBase64(m.audio.value))
    && m.lipsync.Some? && m.lipsync.value.mouthCues.Some?
  }

  /** Normalisation fixes exactly the well-formed messages. */
  lemma NormaliseFixesWellFormed(m: Message, isBase64: string -> bool)
    ensures Normalise(AsRaw(m), isBase64) == m <==> WellFormed(m, isBase64)
  {
  }

  /** Normalising an already normalised message changes nothing. */
  lemma NormaliseIdempotent(raw: RawMessage, isBase64: string -> bool)
    ensures Normalise(AsRaw(Normalise(raw, isBase64)), isBase64) == Normalise(raw, isBase64)
  {
    NormaliseFixesWellFormed(Normalise(raw, isBase64), isBase64);
  }

  /** Every processed batch is well formed. */
  lemma {:induction false} ProcessedWellFormed(raws: seq<RawMessage>, isBase64: string -> bool)
    ensures forall m :: m in ProcessResponseMessages(raws, isBase64) ==> WellFormed(m, isBase64)
  {
    var ms := ProcessResponseMessages(raws, isBase64);
    forall m | m in ms ensures WellFormed(m, isBase64) {
      var k :| 0 <= k < |ms| && ms[k] == m;
      assert m == Normalise(raws[k], isBase64);
    }
  }

  /** The character codes of `atob`'s output, stored in a `Uint8Array`
      (which keeps each code modulo 256). */
  function Latin1Bytes(byteCharacters: string): (bytes: seq<bv8>)
    ensures |bytes| == |byteCharacters|
  {
    seq(|byteCharacters|, k requires 0 <= k < |byteCharacters| => ((byteCharacters[k] as int) % 256) as bv8)
  }

  function Latin1String(bytes: seq<bv8>): (s: string)
    ensures |s| == |bytes|
  {
    seq(|bytes|, k requires 0 <= k < |bytes| => (bytes[k] as int) as char)
  }

  /** `atob` only yields code points below 256, and for those the byte copy
      loses nothing. */
  lemma Latin1RoundTrip(byteCharacters: string)
    requires forall k :: 0 <= k < |byteCharacters| ==> byteCharacters[k] as int < 256
    ensures Latin1String(Latin1Bytes(byteCharacters)) == byteCharacters
  {
    var r := Latin1String(Latin1Bytes(byteCharacters));
    forall k | 0 <= k < |byteCharacters| ensures r[k] == byteCharacters[k] {
      assert Latin1Bytes(byteCharacters)[k] as int == byteCharacters[k] as int;
    }
  }

  /** The loop of `base64ToBlob` that copies the decoded characters into a
      byte array; `atob` and the `Blob` wrapper are outside the model. */
  method ByteArrayOf(byteCharacters: string) returns (byteArray: seq<bv8>)
    ensures byteArray == Latin1Bytes(byteCharacters)
  {
    var byteNumbers := new int[|byteCharacters|];
    for i := 0 to |byteCharacters|
      invariant forall k :: 0 <= k < i ==> byteNumbers[k] == byteCharacters[k] as int
    {
      byteNumbers[i] := byteCharacters[i] as int;
    }
    byteArray := seq(byteNumbers.Length, k requires 0 <= k < byteNumbers.Length reads byteNumbers
                       => (byteNumbers[k] % 256) as bv8);
  }
}
