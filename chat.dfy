/** components/ChatInterface.tsx: the chat panel's state and its handlers.

    An async handler is split where another event can change what it does next:
    `handleSendMessage` after its guard and the user's message, and
    `playMessageAudio` at `await generateSpeech`. Each part is a method, and
    other handlers (or an audio source's `ended` event) may run in between.
    The remaining `await`s of `handleSendMessage` (reading the file, opening
    the stream, each chunk) only feed local variables, so no state change of
    the panel falls between them. The remote results (the streamed chat reply,
    the speech reply, the file reader and `atob`) are parameters. */
module Chat {
  import opened Types
  import opened JsText
  import opened TtsText
  import opened Pcm
  import opened GeminiService

  // ---------------------------------------------------------------------------
  // Fixed texts

  const WelcomeId := "welcome"
  const WelcomeText := "Ciao! \U{1F44B} Sono il tuo assistente per l'ISIS G.D. Romagnosi.\n\nVuoi sapere quali indirizzi offriamo, come sono i laboratori o che progetti facciamo? Chiedimi tutto!"
  /** The bubble appended when the reply cannot be obtained. */
  const Apology := "Ops! Ho avuto un piccolo problema di connessione. Puoi ripetere la domanda?"
  /** The text sent with a document when the user typed nothing. */
  const DocumentPrompt := "Ecco un documento aggiuntivo sulla scuola. Usalo per rispondere alle mie domande."
  /** What the user's bubble says when only a file was sent. */
  const FileNotePrefix := "Inviato file: "
  const PdfMimeType := "application/pdf"

  /** The single message the chat starts with and is reset to. */
  function Welcome(now: int): Message {
    Message(WelcomeId, MODEL, WelcomeText, now, false)
  }

  // ---------------------------------------------------------------------------
  // The streamed reply

  /** One streamed chunk; its `text` may be undefined. */
  datatype Chunk = Chunk(text: Option<string>)

  /** What `responseText += chunk.text` appends: an undefined text is coerced to "undefined". */
  function ChunkText(c: Chunk): string {
    if c.text.Some? then c.text.value else "undefined"
  }

  /** The chunks' texts joined in arrival order. */
  function Concat(chunks: seq<Chunk>): string
    decreases |chunks|
  {
    if chunks == [] then "" else Concat(chunks[..|chunks| - 1]) + ChunkText(chunks[|chunks| - 1])
  }

  /** Joining distributes over splitting the stream. */
  lemma {:induction false} ConcatAppend(a: seq<Chunk>, b: seq<Chunk>)
    ensures Concat(a + b) == Concat(a) + Concat(b)
    decreases |b|
  {
    if b == [] {
      assert a + b == a;
    } else {
      var b', last := b[..|b| - 1], b[|b| - 1];
      var ab := a + b;
      assert Concat(ab) == Concat(a + b') + ChunkText(last) by {
        assert ab[..|ab| - 1] == a + b' && ab[|ab| - 1] == last;
      }
      assert Concat(b) == Concat(b') + ChunkText(last);
      ConcatAppend(a, b');
      Associative(Concat(a), Concat(b'), ChunkText(last));
    }
  }

  lemma Associative(x: string, y: string, z: string)
    ensures (x + y) + z == x + (y + z)
  {
  }

  /** Each chunk's text sits in the reply right after the texts of the chunks before it. */
  lemma ConcatChunkAt(chunks: seq<Chunk>, i: int)
    requires 0 <= i < |chunks|
    ensures var start := |Concat(chunks[..i])|;
            && start + |ChunkText(chunks[i])| <= |Concat(chunks)|
            && Concat(chunks)[start..start + |ChunkText(chunks[i])|] == ChunkText(chunks[i])
  {
    var before, rest := chunks[..i], chunks[i + 1..];
    assert chunks == before + [chunks[i]] + rest;
    ConcatAppend(before + [chunks[i]], rest);
    ConcatAppend(before, [chunks[i]]);
    assert Concat([chunks[i]]) == ChunkText(chunks[i]) by {
      assert [chunks[i]][..0] == [];
    }
  }

  /** The `for await` loop of `handleSendMessage`. */
  method AccumulateStream(chunks: seq<Chunk>) returns (responseText: string)
    ensures responseText == Concat(chunks)
  {
    responseText := "";
    for i := 0 to |chunks|
      invariant responseText == Concat(chunks[..i])
    {
      assert chunks[..i + 1][..i] == chunks[..i];
      responseText := responseText + ChunkText(chunks[i]);
    }
    assert chunks[..|chunks|] == chunks;
  }

  /** `sendMessageStream` and its iteration: the chunks that arrived, then the
      error thrown, if any (a call that throws at once delivers no chunk). */
  datatype Stream = Stream(chunks: seq<Chunk>, failure: Option<string>)

  /** What is sent, and to which chat session (numbered in creation order). */
  datatype ChatRequest =
    | TextMessage(session: nat, text: string)
    | DocumentMessage(session: nat, mimeType: string, data: string, text: string)

  /** What `handleSendMessage` keeps across its `await`s: the session, the
      trimmed text and the file. */
  datatype PendingSend = PendingSend(session: nat, userText: string, file: Option<File>)

  /** The guard of `handleSendMessage`: nothing to send, or a reply pending. */
  predicate Blocked(inputValue: string, attachedFile: Option<File>, isThinking: bool) {
    (Trim(inputValue) == "" && attachedFile.None?) || isThinking
  }

  /** `userText || (tempFile ? "Inviato file: " + name : '')`. */
  function UserMessageText(userText: string, file: Option<File>): string {
    if userText != "" then userText
    else if file.Some? then FileNotePrefix + file.value.name
    else ""
  }

  /** A message that passes the guard shows the trimmed input, or names the file
      when the input is blank; it is never empty. */
  lemma UserMessageShown(inputValue: string, file: Option<File>)
    requires !Blocked(inputValue, file, false)
    ensures AllWhitespace(inputValue) ==> file.Some? && UserMessageText(Trim(inputValue), file) == FileNotePrefix + file.value.name
    ensures !AllWhitespace(inputValue) ==> UserMessageText(Trim(inputValue), file) == Trim(inputValue)
    ensures UserMessageText(Trim(inputValue), file) != ""
  {
    TrimEmptyIff(inputValue);
  }

  /** The request the continuation sends: the text alone, or the PDF (as read
      by the file reader) with the text or the fixed document prompt. Nothing is
      sent when reading the file fails. */
  function RequestFor(p: PendingSend, fileRead: Result<string>): Option<ChatRequest> {
    if p.file.None? then Some(TextMessage(p.session, p.userText))
    else if fileRead.Err? then None
    else Some(DocumentMessage(p.session, PdfMimeType, fileRead.value, if p.userText != "" then p.userText else DocumentPrompt))
  }

  /** A request never carries an empty text when the user typed nothing but attached a file. */
  lemma DocumentRequestText(p: PendingSend, fileRead: Result<string>)
    requires p.file.Some? && fileRead.Ok?
    ensures RequestFor(p, fileRead) == Some(DocumentMessage(p.session, PdfMimeType, fileRead.value, UserOrPrompt(p.userText)))
    ensures RequestFor(p, fileRead).value.text != ""
  {
  }

  /** The text sent alongside a document. */
  function UserOrPrompt(userText: string): string {
    if userText != "" then userText else DocumentPrompt
  }

  /** Whether the continuation appends the model's reply rather than the apology. */
  predicate Answered(p: PendingSend, fileRead: Result<string>, stream: Stream) {
    RequestFor(p, fileRead).Some? && stream.failure.None?
  }

  /** Whether the continuation starts reading its reply aloud. */
  predicate Speaks(p: PendingSend, fileRead: Result<string>, stream: Stream, muted: bool) {
    Answered(p, fileRead, stream) && !muted && Concat(stream.chunks) != ""
  }

  /** The one message the continuation appends. */
  function ReplyMessage(p: PendingSend, replyId: string, errorId: string, now: int,
                        fileRead: Result<string>, stream: Stream): (m: Message)
    ensures m.role == MODEL
    ensures m.isError <==> !Answered(p, fileRead, stream)
    ensures m.isError ==> m == Message(errorId, MODEL, Apology, now, true)
    ensures !m.isError ==> m.id == replyId && m.text == Concat(stream.chunks)
  {
    if Answered(p, fileRead, stream) then Message(replyId, MODEL, Concat(stream.chunks), now, false)
    else Message(errorId, MODEL, Apology, now, true)
  }

  /** An error after some chunks discards them: the reply is the apology alone. */
  lemma FailedStreamDiscardsChunks(p: PendingSend, replyId: string, errorId: string, now: int,
                                   fileRead: Result<string>, chunks: seq<Chunk>, e: string)
    ensures ReplyMessage(p, replyId, errorId, now, fileRead, Stream(chunks, Some(e))).text == Apology
  {
  }

  // ---------------------------------------------------------------------------
  // Speech

  /** `atob`: None when its input is not valid base64, otherwise a binary
      string whose code units are all below 256. */
  type Atob = f: string -> Option<string> | forall s :: f(s).Some? ==> IsBinaryString(f(s).value)
    witness (s: string) => None

  /** The samples `playMessageAudio` plays for a speech reply, or None when any
      step throws: `generateSpeech`, `atob` (None when its input is not valid
      base64), the 16-bit view (odd length) or `createBuffer` (zero frames). */
  function SpeechAudio(reply: Result<SpeechResponse>, atob: Atob): (r: Option<seq<real>>)
    ensures r.Some? ==> |r.value| > 0
    ensures r.Some? ==> forall i :: 0 <= i < |r.value| ==> -1.0 <= r.value[i] <= 32767.0 / 32768.0
  {
    match GenerateSpeech(reply)
    case Err(_) => None
    case Ok(base64Audio) =>
      match atob(base64Audio)
      case None => None
      case Some(binary) =>
        var samples := Samples(Bytes(binary));
        if samples.None? || |samples.value| == 0 then None
        else
          SamplesInRange(Bytes(binary));
          samples
  }

  /** A speech reply whose payload decodes to an even, non-zero number of bytes
      plays exactly the samples those bytes encode. */
  lemma SpeechAudioPlays(audio: string, atob: Atob, binary: string)
    requires audio != "" && atob(audio) == Some(binary)
    requires |binary| > 0 && |binary| % 2 == 0
    ensures SpeechAudio(Ok(SpeechReply(audio, [], [])), atob) == Samples(Bytes(binary))
    ensures |Samples(Bytes(binary)).value| == |binary| / 2
  {
    GenerateSpeechOfReply(audio, [], []);
    SamplesLength(Bytes(binary));
  }

  /** An odd or empty byte string ends in the failure path. */
  lemma SpeechAudioRejects(audio: string, atob: Atob, binary: string)
    requires audio != "" && atob(audio) == Some(binary)
    requires |binary| == 0 || |binary| % 2 == 1
    ensures SpeechAudio(Ok(SpeechReply(audio, [], [])), atob) == None
  {
    GenerateSpeechOfReply(audio, [], []);
    SamplesLength(Bytes(binary));
  }

  /** A started buffer source: a fresh handle and the samples in its buffer. */
  datatype AudioSource = AudioSource(handle: nat, buffer: seq<real>)

  class ChatInterface {
    var messages: seq<Message>
    var inputValue: string
    var isThinking: bool
    /** The chat session, numbered in creation order. */
    var chat: Option<nat>
    var sessionsCreated: nat
    var attachedFile: Option<File>
    var playingMessageId: Option<string>
    var isAudioLoading: bool
    var isMuted: bool
    /** Whether `audioContextRef.current` is set. */
    var hasAudioContext: bool
    /** `audioSourceRef.current`. */
    var audioSource: Option<AudioSource>
    /** The handle the next started source gets. */
    var nextSource: nat
    /** The sources started and neither stopped nor ended: what is heard. A
        source keeps playing after `audioSourceRef` stops referring to it. */
    var audible: set<nat>

    ghost predicate Valid()
      reads this
    {
      && (chat.Some? ==> chat.value < sessionsCreated)
      && (audioSource.Some? ==> audioSource.value.handle in audible)
      && (forall h :: h in audible ==> h < nextSource)
      && (isAudioLoading ==> audioSource.None?)
    }

    /** The handle `audioSourceRef` refers to, if any. */
    ghost function Held(): set<nat>
      reads this
    {
      if audioSource.Some? then {audioSource.value.handle} else {}
    }

    /** Only the held source can be heard, so `stopAudio` silences everything
        and at most one source plays. */
    ghost predicate OnlyHeldAudible()
      reads this
    {
      audible == Held()
    }

    /** What `stopAudio` leaves: no source held, nothing loading, no message marked as playing. */
    ghost predicate Silent()
      reads this
    {
      playingMessageId.None? && !isAudioLoading && audioSource.None?
    }

    /** The loading indicator is shown on a message. */
    ghost predicate LoadingShown()
      reads this
    {
      isAudioLoading ==> playingMessageId.Some?
    }

    twostate predicate KeepsConversation()
      reads this
    {
      && messages == old(messages) && inputValue == old(inputValue) && isThinking == old(isThinking)
      && chat == old(chat) && sessionsCreated == old(sessionsCreated) && attachedFile == old(attachedFile)
    }

    twostate predicate KeepsSettings()
      reads this
    {
      isMuted == old(isMuted) && hasAudioContext == old(hasAudioContext)
    }

    twostate predicate KeepsAudio()
      reads this
    {
      && playingMessageId == old(playingMessageId) && isAudioLoading == old(isAudioLoading)
      && audioSource == old(audioSource) && nextSource == old(nextSource) && audible == old(audible)
    }

    /** The state after `playMessageAudio(messageId, rawText)` runs up to its
        `await`, started with `wasPlaying` marked as playing and `sources`
        handles given out. `request` is the text sent to the speech model, if any. */
    ghost predicate AfterBegin(wasPlaying: Option<string>, sources: nat, messageId: string, rawText: string,
                               request: Option<string>)
      reads this
    {
      var issued := wasPlaying != Some(messageId) && hasAudioContext;
      && audioSource.None? && nextSource == sources
      && request == (if issued then Some(CleanTextForTts(rawText)) else None)
      && if issued then playingMessageId == Some(messageId) && isAudioLoading else Silent()
    }

    /** The state after a whole `playMessageAudio(messageId, rawText)` call that
        started with `wasPlaying` marked as playing and `sources` handles given
        out. `request` is the text sent to the speech model, if any. */
    ghost predicate AfterPlayback(wasPlaying: Option<string>, sources: nat, messageId: string, rawText: string,
                                  reply: Result<SpeechResponse>, atob: Atob,
                                  request: Option<string>)
      reads this
    {
      var issued := wasPlaying != Some(messageId) && hasAudioContext;
      var audio := SpeechAudio(reply, atob);
      && request == (if issued then Some(CleanTextForTts(rawText)) else None)
      && !isAudioLoading
      && if issued && audio.Some? then
           playingMessageId == Some(messageId) && audioSource == Some(AudioSource(sources, audio.value))
           && nextSource == sources + 1
         else
           playingMessageId.None? && audioSource.None? && nextSource == sources
    }

    /** The initial `useState` values. */
    constructor (now: int)
      ensures Valid() && Silent()
      ensures messages == [Welcome(now)] && inputValue == "" && !isThinking
      ensures chat.None? && sessionsCreated == 0 && attachedFile.None?
      ensures !isMuted && !hasAudioContext && nextSource == 0 && audible == {}
    {
      messages := [Welcome(now)];
      inputValue := "";
      isThinking := false;
      chat := None;
      sessionsCreated := 0;
      attachedFile := None;
      playingMessageId := None;
      isAudioLoading := false;
      isMuted := false;
      hasAudioContext := false;
      audioSource := None;
      nextSource := 0;
      audible := {};
    }

    /** The mount effect: create the chat session and, when the browser has the
        Web Audio API, the audio context. */
    method Mount(audioApi: bool)
      requires Valid()
      modifies this
      ensures Valid()
      ensures chat == Some(old(sessionsCreated)) && sessionsCreated == old(sessionsCreated) + 1
      ensures hasAudioContext == (old(hasAudioContext) || audioApi)
      ensures messages == old(messages) && inputValue == old(inputValue) && isThinking == old(isThinking)
      ensures attachedFile == old(attachedFile) && isMuted == old(isMuted) && KeepsAudio()
    {
      chat := Some(sessionsCreated);
      sessionsCreated := sessionsCreated + 1;
      if audioApi {
        hasAudioContext := true;
      }
    }

    /** `stopAudio`: stop and drop the held source, clear the playing and loading marks. */
    method StopAudio()
      requires Valid()
      modifies this
      ensures Valid() && Silent()
      ensures nextSource == old(nextSource) && audible == old(audible) - old(Held())
      ensures old(OnlyHeldAudible()) ==> audible == {}
      ensures old(Silent()) ==> KeepsAudio()
      ensures KeepsConversation() && KeepsSettings()
    {
      if audioSource.Some? {
        // source.stop(); an error from a source that already ended is ignored
        audible := audible - {audioSource.value.handle};
        audioSource := None;
      }
      playingMessageId := None;
      isAudioLoading := false;
    }

    /** `toggleMute`: stop the audio and flip auto-play. */
    method ToggleMute()
      requires Valid()
      modifies this
      ensures Valid() && Silent()
      ensures isMuted == !old(isMuted) && hasAudioContext == old(hasAudioContext)
      ensures nextSource == old(nextSource) && KeepsConversation()
      ensures old(OnlyHeldAudible()) ==> OnlyHeldAudible()
      ensures audible == old(audible) - old(Held())
    {
      StopAudio();
      isMuted := !isMuted;
    }

    /** `clearChat`: stop the audio, reset the history to the welcome message,
        clear input and attachment, and open a new session. A reply still
        pending is not cancelled. */
    method ClearChat(now: int)
      requires Valid()
      modifies this
      ensures Valid() && Silent()
      ensures messages == [Welcome(now)] && inputValue == "" && attachedFile.None?
      ensures chat == Some(old(sessionsCreated)) && sessionsCreated == old(sessionsCreated) + 1
      ensures isThinking == old(isThinking) && nextSource == old(nextSource) && KeepsSettings()
      ensures old(OnlyHeldAudible()) ==> OnlyHeldAudible()
      ensures audible == old(audible) - old(Held())
    {
      StopAudio();
      messages := [Welcome(now)];
      inputValue := "";
      attachedFile := None;
      chat := Some(sessionsCreated);
      sessionsCreated := sessionsCreated + 1;
    }

    /** `handleFileSelect`: the first selected file is attached when it is a PDF;
        any other file raises the alert and leaves the attachment as it was. */
    method HandleFileSelect(files: seq<File>) returns (alerted: bool)
      modifies this`attachedFile
      ensures files != [] && files[0].mimeType == PdfMimeType ==> attachedFile == Some(files[0])
      ensures !(files != [] && files[0].mimeType == PdfMimeType) ==> attachedFile == old(attachedFile)
      ensures alerted <==> files != [] && files[0].mimeType != PdfMimeType
    {
      alerted := false;
      if files != [] {
        var file := files[0];
        if file.mimeType == PdfMimeType {
          attachedFile := Some(file);
        } else {
          alerted := true;
        }
      }
    }

    /** `clearFile`. */
    method ClearFile()
      modifies this`attachedFile
      ensures attachedFile.None?
    {
      attachedFile := None;
    }

    /** The input's `onChange`. */
    method SetInput(text: string)
      modifies this`inputValue
      ensures inputValue == text
    {
      inputValue := text;
    }

    /** `playMessageAudio` up to `await generateSpeech`: a click on the message
        that is playing stops it; otherwise the audio is stopped first, and with
        an audio context the message is marked as loading and playing and its
        cleaned text is sent to the speech model (`request`). */
    method BeginPlayback(messageId: string, rawText: string) returns (request: Option<string>)
      requires Valid()
      modifies this
      ensures Valid() && AfterBegin(old(playingMessageId), old(nextSource), messageId, rawText, request)
      ensures audible == old(audible) - old(Held())
      ensures old(OnlyHeldAudible()) ==> OnlyHeldAudible() && audible == {}
      ensures KeepsConversation() && KeepsSettings()
    {
      if playingMessageId == Some(messageId) {
        StopAudio();
        return None;
      }
      StopAudio();
      if !hasAudioContext {
        return None;
      }
      isAudioLoading := true;
      playingMessageId := Some(messageId);
      request := Some(CleanTextForTts(rawText));
    }

    /** `playMessageAudio` after the speech reply: decode it and start a new
        source; on any failure clear the playing mark. Loading ends either way.
        The new source replaces the reference to any source already held, which
        is not stopped and stays audible. */
    method CompletePlayback(reply: Result<SpeechResponse>, atob: Atob)
      requires Valid()
      modifies this
      ensures Valid() && !isAudioLoading
      ensures SpeechAudio(reply, atob).Some? ==>
                && audioSource == Some(AudioSource(old(nextSource), SpeechAudio(reply, atob).value))
                && nextSource == old(nextSource) + 1 && playingMessageId == old(playingMessageId)
                && audible == old(audible) + {old(nextSource)}
      ensures SpeechAudio(reply, atob).None? ==>
                && audioSource == old(audioSource) && nextSource == old(nextSource) && playingMessageId.None?
                && audible == old(audible)
      ensures old(audioSource).None? && old(OnlyHeldAudible()) ==> OnlyHeldAudible()
      ensures KeepsConversation() && KeepsSettings()
    {
      var started := false;
      var base64Audio := GenerateSpeech(reply);
      if base64Audio.Ok? {
        var binary := atob(base64Audio.value);
        if binary.Some? {
          var samples := DecodePcm(binary.value);
          if samples.Some? && |samples.value| > 0 {
            // createBuffer, fill, createBufferSource, start(0)
            audioSource := Some(AudioSource(nextSource, samples.value));
            audible := audible + {nextSource};
            nextSource := nextSource + 1;
            started := true;
          }
        }
      }
      if !started {
        playingMessageId := None;
      }
      isAudioLoading := false;
    }

    /** `CompletePlayback` that stops the held source before it starts the new
        one, so that a speech reply arriving while another source plays never
        leaves two sources audible. */
    method CompletePlaybackGuarded(reply: Result<SpeechResponse>, atob: Atob)
      requires Valid()
      modifies this
      ensures Valid() && !isAudioLoading
      ensures SpeechAudio(reply, atob).Some? ==>
                && audioSource == Some(AudioSource(old(nextSource), SpeechAudio(reply, atob).value))
                && nextSource == old(nextSource) + 1 && playingMessageId == old(playingMessageId)
                && audible == old(audible) - old(Held()) + {old(nextSource)}
      ensures SpeechAudio(reply, atob).None? ==>
                && audioSource == old(audioSource) && nextSource == old(nextSource) && playingMessageId.None?
                && audible == old(audible)
      ensures old(OnlyHeldAudible()) ==> OnlyHeldAudible() && |audible| <= 1
      ensures KeepsConversation() && KeepsSettings()
    {
      if SpeechAudio(reply, atob).Some? && audioSource.Some? {
        // source.stop() on the held source before the new one starts
        audible := audible - {audioSource.value.handle};
        audioSource := None;
      }
      CompletePlayback(reply, atob);
    }

    /** A whole `playMessageAudio` call with nothing in between: toggle, no
        audio context, success and failure as `AfterPlayback` states them. */
    method PlayMessageAudio(messageId: string, rawText: string, reply: Result<SpeechResponse>,
                            atob: Atob) returns (request: Option<string>)
      requires Valid()
      modifies this
      ensures Valid() && AfterPlayback(old(playingMessageId), old(nextSource), messageId, rawText, reply, atob, request)
      ensures audible == old(audible) - old(Held()) + Held()
      ensures old(OnlyHeldAudible()) ==> OnlyHeldAudible() && |audible| <= 1
      ensures KeepsConversation() && KeepsSettings()
    {
      request := BeginPlayback(messageId, rawText);
      if request.Some? {
        CompletePlayback(reply, atob);
      }
    }

    /** The `onended` handler installed on every source, as written: it clears
        the playing mark and the held source whichever source ended. */
    method OnEnded(handle: nat)
      requires Valid()
      modifies this
      ensures Valid() && playingMessageId.None? && audioSource.None?
      ensures isAudioLoading == old(isAudioLoading) && nextSource == old(nextSource)
      ensures audible == old(audible) - {handle}
      ensures old(audioSource).Some? && old(audioSource).value.handle != handle ==>
                old(audioSource).value.handle in audible
      ensures KeepsConversation() && KeepsSettings()
    {
      playingMessageId := None;
      audioSource := None;
      audible := audible - {handle};
    }

    /** `onended` guarded by the source it belongs to: only the held source's
        end clears the state; the end of a source already stopped changes nothing. */
    method OnEndedGuarded(handle: nat)
      requires Valid()
      modifies this
      ensures Valid()
      ensures old(audioSource).Some? && old(audioSource).value.handle == handle ==>
                playingMessageId.None? && audioSource.None? && isAudioLoading == old(isAudioLoading)
                && nextSource == old(nextSource)
      ensures !(old(audioSource).Some? && old(audioSource).value.handle == handle) ==>
                && playingMessageId == old(playingMessageId) && isAudioLoading == old(isAudioLoading)
                && audioSource == old(audioSource) && nextSource == old(nextSource)
      ensures audible == old(audible) - {handle}
      ensures old(LoadingShown()) ==> LoadingShown()
      ensures old(OnlyHeldAudible()) ==> OnlyHeldAudible()
      ensures KeepsConversation() && KeepsSettings()
    {
      if audioSource.Some? && audioSource.value.handle == handle {
        playingMessageId := None;
        audioSource := None;
      }
      audible := audible - {handle};
    }

    /** `handleSendMessage` up to its first `await`: make sure a session exists;
        unless blocked, stop the audio, take and clear the input and the
        attachment, append the user's message and mark a reply as pending. */
    method SubmitMessage(userId: string, now: int) returns (pending: Option<PendingSend>)
      requires Valid()
      modifies this
      ensures Valid() && chat.Some?
      ensures old(chat).Some? ==> chat == old(chat) && sessionsCreated == old(sessionsCreated)
      ensures old(chat).None? ==> chat == Some(old(sessionsCreated)) && sessionsCreated == old(sessionsCreated) + 1
      ensures Blocked(old(inputValue), old(attachedFile), old(isThinking)) ==>
                && pending.None? && messages == old(messages) && inputValue == old(inputValue)
                && attachedFile == old(attachedFile) && isThinking == old(isThinking) && KeepsAudio()
      ensures !Blocked(old(inputValue), old(attachedFile), old(isThinking)) ==>
                && pending == Some(PendingSend(chat.value, Trim(old(inputValue)), old(attachedFile)))
                && messages == old(messages) + [Message(userId, USER, UserMessageText(Trim(old(inputValue)), old(attachedFile)), now, false)]
                && inputValue == "" && attachedFile.None? && isThinking
                && Silent() && nextSource == old(nextSource)
      ensures KeepsSettings()
      ensures old(OnlyHeldAudible()) ==> OnlyHeldAudible()
      ensures !Blocked(old(inputValue), old(attachedFile), old(isThinking)) ==> audible == old(audible) - old(Held())
    {
      var userText := Trim(inputValue);
      if chat.None? {
        chat := Some(sessionsCreated);
        sessionsCreated := sessionsCreated + 1;
      }
      if (userText == "" && attachedFile.None?) || isThinking {
        return None;
      }
      var sent := Dispatch(userText, userId, now);
      pending := Some(sent);
    }

    /** The state change of an accepted send: stop the audio, clear the input
        and the attachment, append the user's message, mark a reply as pending. */
    method Dispatch(userText: string, userId: string, now: int) returns (pending: PendingSend)
      requires Valid() && chat.Some?
      modifies this
      ensures Valid() && Silent() && nextSource == old(nextSource)
      ensures pending == PendingSend(old(chat).value, userText, old(attachedFile))
      ensures messages == old(messages) + [Message(userId, USER, UserMessageText(userText, old(attachedFile)), now, false)]
      ensures inputValue == "" && attachedFile.None? && isThinking
      ensures chat == old(chat) && sessionsCreated == old(sessionsCreated) && KeepsSettings()
      ensures old(OnlyHeldAudible()) ==> OnlyHeldAudible()
      ensures audible == old(audible) - old(Held())
    {
      StopAudio();
      var tempFile := attachedFile;
      inputValue := "";
      attachedFile := None;
      var newMessage := Message(userId, USER, UserMessageText(userText, tempFile), now, false);
      messages := messages + [newMessage];
      isThinking := true;
      pending := PendingSend(chat.value, userText, tempFile);
    }

    /** `handleSendMessage` after its `await`s: send the request, append the
        reply (the chunks joined) or the apology, start reading the reply aloud
        when not muted and the reply is non-empty, and clear
        the pending mark. Playback is not awaited: the speech reply arrives later,
        through `CompletePlayback`. */
    method ReceiveReply(p: PendingSend, replyId: string, errorId: string, now: int,
                        fileRead: Result<string>, stream: Stream)
      returns (request: Option<ChatRequest>, spoken: Option<string>)
      requires Valid()
      modifies this
      ensures Valid() && !isThinking
      ensures request == RequestFor(p, fileRead)
      ensures request.Some? ==> request.value.session == p.session
      ensures messages == old(messages) + [ReplyMessage(p, replyId, errorId, now, fileRead, stream)]
      ensures inputValue == old(inputValue) && attachedFile == old(attachedFile)
      ensures chat == old(chat) && sessionsCreated == old(sessionsCreated) && KeepsSettings()
      ensures Speaks(p, fileRead, stream, isMuted) ==>
                AfterBegin(old(playingMessageId), old(nextSource), replyId, Concat(stream.chunks), spoken)
      ensures !Speaks(p, fileRead, stream, isMuted) ==> spoken.None? && KeepsAudio()
      ensures old(OnlyHeldAudible()) ==> OnlyHeldAudible()
      ensures Speaks(p, fileRead, stream, isMuted) ==> audible == old(audible) - old(Held())
    {
      spoken := None;
      request := RequestFor(p, fileRead);
      if request.None? || stream.failure.Some? {
        messages := messages + [Message(errorId, MODEL, Apology, now, true)];
      } else {
        var responseText := AccumulateStream(stream.chunks);
        messages := messages + [Message(replyId, MODEL, responseText, now, false)];
        if !isMuted && responseText != "" {
          spoken := BeginPlayback(replyId, responseText);
        }
      }
      isThinking := false;
    }

    /** A whole `handleSendMessage` with nothing else in between, including the
        playback it starts. */
    method HandleSendMessage(userId: string, replyId: string, errorId: string, now: int,
                             fileRead: Result<string>, stream: Stream,
                             tts: Result<SpeechResponse>, atob: Atob)
      returns (request: Option<ChatRequest>, spoken: Option<string>)
      requires Valid()
      modifies this
      ensures Valid() && chat.Some?
      ensures Blocked(old(inputValue), old(attachedFile), old(isThinking)) ==>
                && request.None? && spoken.None? && messages == old(messages)
                && inputValue == old(inputValue) && attachedFile == old(attachedFile)
                && isThinking == old(isThinking) && KeepsAudio()
      ensures !Blocked(old(inputValue), old(attachedFile), old(isThinking)) ==>
                var p := PendingSend(chat.value, Trim(old(inputValue)), old(attachedFile));
                && request == RequestFor(p, fileRead)
                && messages == old(messages)
                     + [Message(userId, USER, UserMessageText(Trim(old(inputValue)), old(attachedFile)), now, false),
                        ReplyMessage(p, replyId, errorId, now, fileRead, stream)]
                && inputValue == "" && attachedFile.None? && !isThinking
                && (Speaks(p, fileRead, stream, isMuted) ==>
                      AfterPlayback(None, old(nextSource), replyId, Concat(stream.chunks), tts, atob, spoken))
                && (!Speaks(p, fileRead, stream, isMuted) ==> spoken.None? && Silent() && nextSource == old(nextSource))
      ensures KeepsSettings()
      ensures old(OnlyHeldAudible()) ==> OnlyHeldAudible()
      ensures !Blocked(old(inputValue), old(attachedFile), old(isThinking)) ==> audible == old(audible) - old(Held()) + Held()
    {
      request, spoken := None, None;
      var pending := SubmitMessage(userId, now);
      if pending.Some? {
        request, spoken := ReceiveAndPlay(pending.value, replyId, errorId, now, fileRead, stream, tts, atob);
      }
    }

    /** The continuation followed at once by the speech reply it waits for. */
    method ReceiveAndPlay(p: PendingSend, replyId: string, errorId: string, now: int,
                          fileRead: Result<string>, stream: Stream,
                          tts: Result<SpeechResponse>, atob: Atob)
      returns (request: Option<ChatRequest>, spoken: Option<string>)
      requires Valid()
      modifies this
      ensures Valid() && !isThinking
      ensures request == RequestFor(p, fileRead)
      ensures messages == old(messages) + [ReplyMessage(p, replyId, errorId, now, fileRead, stream)]
      ensures inputValue == old(inputValue) && attachedFile == old(attachedFile)
      ensures chat == old(chat) && sessionsCreated == old(sessionsCreated) && KeepsSettings()
      ensures Speaks(p, fileRead, stream, isMuted) ==>
                AfterPlayback(old(playingMessageId), old(nextSource), replyId, Concat(stream.chunks), tts, atob, spoken)
      ensures !Speaks(p, fileRead, stream, isMuted) ==> spoken.None? && KeepsAudio()
      ensures old(OnlyHeldAudible()) ==> OnlyHeldAudible()
      ensures Speaks(p, fileRead, stream, isMuted) ==> audible == old(audible) - old(Held()) + Held()
    {
      request, spoken := ReceiveReply(p, replyId, errorId, now, fileRead, stream);
      if spoken.Some? {
        CompletePlayback(tts, atob);
      }
    }
  }

  /** The `ended` event of a source stopped by `stopAudio` arrives while the next
      message's speech is loading. With the handler as written, the loading
      message loses its playing mark, and once its audio starts the panel shows
      nothing playing while a source is held. */
  method StaleEndedAsWritten(reply: Result<SpeechResponse>, atob: Atob)
    returns (loadingUnmarked: bool, playing: Option<string>, held: bool)
    requires SpeechAudio(reply, atob).Some?
    ensures loadingUnmarked && playing.None? && held
  {
    var panel := new ChatInterface(0);
    panel.Mount(true);
    var first := panel.PlayMessageAudio("m1", "uno", reply, atob);
    assert panel.audioSource == Some(AudioSource(0, SpeechAudio(reply, atob).value));
    var second := panel.BeginPlayback("m2", "due");
    panel.OnEnded(0);
    loadingUnmarked := panel.isAudioLoading && panel.playingMessageId.None?;
    panel.CompletePlayback(reply, atob);
    playing, held := panel.playingMessageId, panel.audioSource.Some?;
  }

  /** The same events with `onended` guarded by its source: the late event of
      the stopped source changes nothing, and the second message is marked as
      playing while its source is held. */
  method StaleEndedGuarded(reply: Result<SpeechResponse>, atob: Atob)
    returns (loadingUnmarked: bool, playing: Option<string>, held: bool)
    requires SpeechAudio(reply, atob).Some?
    ensures !loadingUnmarked && playing == Some("m2") && held
  {
    var panel := new ChatInterface(0);
    panel.Mount(true);
    var first := panel.PlayMessageAudio("m1", "uno", reply, atob);
    var second := panel.BeginPlayback("m2", "due");
    panel.OnEndedGuarded(0);
    loadingUnmarked := panel.isAudioLoading && panel.playingMessageId.None?;
    panel.CompletePlayback(reply, atob);
    playing, held := panel.playingMessageId, panel.audioSource.Some?;
  }

  /** `clearChat` while a reply is pending: the message was sent to the session
      captured when it was submitted, not to the one `clearChat` opened, and its
      reply is still appended to the cleared history. */
  method ReplyAfterClear(chunks: seq<Chunk>)
    returns (sentTo: nat, current: nat, history: seq<Message>)
    ensures sentTo == 0 && current == 1
    ensures history == [Welcome(1), Message("r", MODEL, Concat(chunks), 2, false)]
  {
    var panel := new ChatInterface(0);
    panel.Mount(false);
    panel.SetInput("ciao");
    assert Trim("ciao") == "ciao";
    var pending := panel.SubmitMessage("u", 0);
    panel.ClearChat(1);
    var request, spoken := panel.ReceiveReply(pending.value, "r", "e", 2, Ok(""), Stream(chunks, None));
    sentTo, current, history := request.value.session, panel.chat.value, panel.messages;
  }

  /** A click toggles m1 off while its speech loads, then m2 is clicked; m1's
      speech reply arrives, then m2's. As written, m2's source replaces the
      reference to m1's without stopping it: two sources are heard at once. */
  method OverlapAsWritten(reply: Result<SpeechResponse>, atob: Atob)
    returns (heard: set<nat>, held: Option<nat>)
    requires SpeechAudio(reply, atob).Some?
    ensures heard == {0, 1} && held == Some(1)
  {
    var panel := new ChatInterface(0);
    panel.Mount(true);
    var first := panel.BeginPlayback("m1", "uno");
    var toggled := panel.BeginPlayback("m1", "uno");
    var second := panel.BeginPlayback("m2", "due");
    panel.CompletePlayback(reply, atob);
    panel.CompletePlayback(reply, atob);
    heard := panel.audible;
    held := if panel.audioSource.Some? then Some(panel.audioSource.value.handle) else None;
  }

  /** The same events with the held source stopped before a new one starts:
      only m2's source is heard, and it is the one held. */
  method OverlapGuarded(reply: Result<SpeechResponse>, atob: Atob)
    returns (heard: set<nat>, held: Option<nat>)
    requires SpeechAudio(reply, atob).Some?
    ensures heard == {1} && held == Some(1)
  {
    var panel := new ChatInterface(0);
    panel.Mount(true);
    var first := panel.BeginPlayback("m1", "uno");
    var toggled := panel.BeginPlayback("m1", "uno");
    var second := panel.BeginPlayback("m2", "due");
    panel.CompletePlaybackGuarded(reply, atob);
    panel.CompletePlaybackGuarded(reply, atob);
    heard := panel.audible;
    held := if panel.audioSource.Some? then Some(panel.audioSource.value.handle) else None;
  }
}
