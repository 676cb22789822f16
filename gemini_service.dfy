/** services/geminiService.ts: what the service helpers do with the model's
    replies. The SDK calls themselves (`generateContent`, `generateVideos`,
    `getVideosOperation`) are not modelled; their results arrive as values. */
module GeminiService {
  import opened Types

  // ---------------------------------------------------------------------------
  // generateSpeech

  /** The message `generateSpeech` throws when the reply carries no audio. */
  const NoAudioError := "No audio data returned from Gemini TTS"

  /** The parts of a `generateContent` reply that the speech helper reads; every
      level is optional, as the `?.` chain at geminiService.ts:93 assumes. */
  datatype InlineData = InlineData(data: Option<string>)
  datatype Part = Part(inlineData: Option<InlineData>)
  datatype Content = Content(parts: Option<seq<Part>>)
  datatype Candidate = Candidate(content: Option<Content>)
  datatype SpeechResponse = SpeechResponse(candidates: Option<seq<Candidate>>)

  /** `response.candidates?.[0]?.content?.parts?.[0]?.inlineData?.data`. */
  function AudioData(r: SpeechResponse): Option<string> {
    if r.candidates.None? || |r.candidates.value| == 0 then None
    else
      var content := r.candidates.value[0].content;
      if content.None? || content.value.parts.None? || |content.value.parts.value| == 0 then None
      else
        var inline := content.value.parts.value[0].inlineData;
        if inline.None? then None else inline.value.data
  }

  /** A reply whose first candidate's first part carries `audio`, followed by
      whatever other candidates and parts. */
  function SpeechReply(audio: string, moreParts: seq<Part>, moreCandidates: seq<Candidate>): SpeechResponse {
    SpeechResponse(Some([Candidate(Some(Content(Some([Part(Some(InlineData(Some(audio))))] + moreParts))))] + moreCandidates))
  }

  /** The payload is read from candidate 0, part 0 and nowhere else: other
      parts and candidates never change it. */
  lemma AudioDataOfReply(audio: string, moreParts: seq<Part>, moreCandidates: seq<Candidate>)
    ensures AudioData(SpeechReply(audio, moreParts, moreCandidates)) == Some(audio)
  {
  }

  /** A reply without candidates, or whose first candidate has no parts, holds no audio. */
  lemma AudioDataAbsent(r: SpeechResponse)
    requires r.candidates.None? || r.candidates.value == []
          || r.candidates.value[0].content.None?
          || r.candidates.value[0].content.value.parts.None?
          || r.candidates.value[0].content.value.parts.value == []
    ensures AudioData(r) == None
  {
  }

  /** `generateSpeech` after its request: an SDK failure passes through, a
      missing or empty payload (`!audioData`) throws `NoAudioError`, anything
      else is returned. */
  function GenerateSpeech(reply: Result<SpeechResponse>): (r: Result<string>)
    ensures reply.Err? ==> r == Err(reply.message)
    ensures reply.Ok? ==> (r.Ok? <==> AudioData(reply.value).Some? && AudioData(reply.value).value != "")
    ensures reply.Ok? && r.Ok? ==> Some(r.value) == AudioData(reply.value)
    ensures reply.Ok? && r.Err? ==> r.message == NoAudioError
    ensures r.Ok? ==> r.value != ""
  {
    match reply
    case Err(m) => Err(m)
    case Ok(response) =>
      var audio := AudioData(response);
      if audio.None? || audio.value == "" then Err(NoAudioError) else Ok(audio.value)
  }

  /** Round trip: a reply built around a non-empty payload yields that payload. */
  lemma GenerateSpeechOfReply(audio: string, moreParts: seq<Part>, moreCandidates: seq<Candidate>)
    requires audio != ""
    ensures GenerateSpeech(Ok(SpeechReply(audio, moreParts, moreCandidates))) == Ok(audio)
  {
    AudioDataOfReply(audio, moreParts, moreCandidates);
  }

  // ---------------------------------------------------------------------------
  // generateVeoVideo: the request

  const VideoModel := "veo-3.1-fast-generate-preview"
  const DefaultPrompt := "Animate this image naturally"
  const ImageMimeType := "image/png"
  const Resolution := "720p"

  datatype ImageInput = ImageInput(imageBytes: string, mimeType: string)
  datatype VideoConfig = VideoConfig(numberOfVideos: int, resolution: string, aspectRatio: string)
  datatype VideoRequest = VideoRequest(model: string, prompt: string, image: ImageInput, config: VideoConfig)

  /** The `generateVideos` request: `prompt || DefaultPrompt`, the image as PNG,
      one 720p video in the chosen format. */
  function BuildVideoRequest(imageBase64: string, prompt: string, aspectRatio: AspectRatio): (req: VideoRequest)
    ensures req.model == VideoModel
    ensures req.prompt != ""
    ensures prompt != "" ==> req.prompt == prompt
    ensures prompt == "" ==> req.prompt == DefaultPrompt
    ensures req.image == ImageInput(imageBase64, ImageMimeType)
    ensures req.config.numberOfVideos == 1 && req.config.resolution == Resolution
    ensures ParseAspectRatio(req.config.aspectRatio) == Some(aspectRatio)
  {
    VideoRequest(VideoModel, if prompt == "" then DefaultPrompt else prompt,
                 ImageInput(imageBase64, ImageMimeType),
                 VideoConfig(1, Resolution, aspectRatio.Value()))
  }

  /** The AI Studio host, when the page runs inside it, and whether it already
      has an API key selected. */
  datatype Studio = NoStudio | Studio(hasSelectedKey: bool)

  /** Whether `generateVeoVideo` opens the key picker before submitting. */
  function OpensKeySelection(studio: Studio): (b: bool)
    ensures b <==> studio == Studio(false)
  {
    studio.Studio? && !studio.hasSelectedKey
  }

  // ---------------------------------------------------------------------------
  // generateVeoVideo: the long-running operation

  datatype Video = Video(uri: Option<string>)
  datatype GeneratedVideo = GeneratedVideo(video: Option<Video>)
  datatype VideoResponse = VideoResponse(generatedVideos: Option<seq<GeneratedVideo>>)
  /** `operation.error`; only its `message` is read. */
  datatype OperationError = OperationError(message: Option<string>)
  /** One snapshot of the operation. An absent `done` reads as false. */
  datatype Operation = Operation(done: bool, error: Option<OperationError>, response: Option<VideoResponse>)

  /** The result of one SDK call that yields an operation: the snapshot, or the
      message of the error it threw. */
  datatype Fetch = Fetched(op: Operation) | Threw(message: string)

  /** Where the poll loop stops on a scripted sequence of calls (the submission,
      then every `getVideosOperation`): at a done snapshot, at a thrown error, or
      still waiting when the script runs out. */
  datatype PollOutcome = Done(op: Operation) | Failed(message: string) | Waiting

  /** The loop `while (!operation.done)` over `script`. */
  function Poll(script: seq<Fetch>): PollOutcome
    decreases |script|
  {
    if script == [] then Waiting
    else match script[0]
      case Threw(m) => Failed(m)
      case Fetched(op) => if op.done then Done(op) else Poll(script[1..])
  }

  /** Position `k` is the first call that throws or yields a done snapshot. */
  ghost predicate StopsAt(script: seq<Fetch>, k: int) {
    && 0 <= k < |script|
    && (script[k].Threw? || script[k].op.done)
    && forall j :: 0 <= j < k ==> script[j].Fetched? && !script[j].op.done
  }

  /** The loop stops at the first stopping call: a done snapshot there is the
      result, a thrown error there is the failure. */
  lemma {:induction false} PollStopsAt(script: seq<Fetch>, k: int)
    requires StopsAt(script, k)
    ensures script[k].Fetched? ==> Poll(script) == Done(script[k].op)
    ensures script[k].Threw? ==> Poll(script) == Failed(script[k].message)
    decreases k
  {
    if k > 0 {
      assert script[0].Fetched? && !script[0].op.done;
      var rest := script[1..];
      assert StopsAt(rest, k - 1) by {
        forall j | 0 <= j < k - 1 ensures rest[j].Fetched? && !rest[j].op.done {
          assert rest[j] == script[j + 1];
        }
      }
      PollStopsAt(rest, k - 1);
    }
  }

  /** Conversely, whatever the loop returns comes from the first stopping call,
      and it keeps waiting only when no call stops it. */
  lemma {:induction false} PollResultAt(script: seq<Fetch>)
    ensures Poll(script).Done? ==> exists k :: StopsAt(script, k) && script[k] == Fetched(Poll(script).op)
    ensures Poll(script).Failed? ==> exists k :: StopsAt(script, k) && script[k] == Threw(Poll(script).message)
    ensures Poll(script).Waiting? <==> forall j :: 0 <= j < |script| ==> script[j].Fetched? && !script[j].op.done
    decreases |script|
  {
    if script != [] && script[0].Fetched? && !script[0].op.done {
      var rest := script[1..];
      PollResultAt(rest);
      if Poll(rest).Done? || Poll(rest).Failed? {
        var k :| StopsAt(rest, k) && (script[k + 1] == rest[k]);
        assert StopsAt(script, k + 1) by {
          forall j | 0 <= j < k + 1 ensures script[j].Fetched? && !script[j].op.done {
            if j > 0 { assert script[j] == rest[j - 1]; }
          }
        }
      }
      if Poll(script).Waiting? {
        forall j | 0 <= j < |script| ensures script[j].Fetched? && !script[j].op.done {
          if j > 0 { assert script[j] == rest[j - 1]; }
        }
      } else {
        var j :| 0 <= j < |rest| && !(rest[j].Fetched? && !rest[j].op.done);
        assert script[j + 1] == rest[j];
      }
    } else if script != [] {
      assert StopsAt(script, 0);
    }
  }

  /** The fallback message for an operation error without one. */
  const VideoFailed := "Video generation failed"
  /** The message thrown when a finished operation has no video URI. */
  const NoVideoUri := "No video URI returned"
  /** The separator before the API key in the download link. */
  const KeyParam := "&key="

  /** `operation.response?.generatedVideos?.[0]?.video?.uri`. */
  function VideoUri(op: Operation): Option<string> {
    if op.response.None? || op.response.value.generatedVideos.None?
       || |op.response.value.generatedVideos.value| == 0 then None
    else
      var video := op.response.value.generatedVideos.value[0].video;
      if video.None? then None else video.value.uri
  }

  /** The tail of `generateVeoVideo` on a done operation: the error is checked
      first, then the URI; the download link is the URI with the key appended. */
  function Finish(op: Operation, apiKey: string): (r: Result<string>)
    ensures op.error.Some? ==> r.Err?
    ensures op.error.Some? && (op.error.value.message.None? || op.error.value.message.value == "") ==> r == Err(VideoFailed)
    ensures op.error.Some? && op.error.value.message.Some? && op.error.value.message.value != "" ==> r == Err(op.error.value.message.value)
    ensures op.error.None? ==> (r.Ok? <==> VideoUri(op).Some? && VideoUri(op).value != "")
    ensures op.error.None? && r.Err? ==> r.message == NoVideoUri
    ensures r.Ok? ==> exists uri :: VideoUri(op) == Some(uri) && uri != "" && r.value == uri + KeyParam + apiKey
  {
    if op.error.Some? then
      var m := op.error.value.message;
      Err(if m.None? || m.value == "" then VideoFailed else m.value)
    else
      var uri := VideoUri(op);
      if uri.None? || uri.value == "" then Err(NoVideoUri)
      else Ok(uri.value + KeyParam + apiKey)
  }

  /** An error is reported even when the operation also carries a video. */
  lemma ErrorBeforeUri(op: Operation, apiKey: string)
    requires op.error.Some? && VideoUri(op).Some?
    ensures Finish(op, apiKey).Err?
    ensures Finish(op, apiKey).message != NoVideoUri || op.error.value.message == Some(NoVideoUri)
  {
  }

  /** The download link splits back into the URI and the key. */
  lemma KeyedLink(op: Operation, apiKey: string)
    requires Finish(op, apiKey).Ok?
    ensures var link := Finish(op, apiKey).value;
            var uri := VideoUri(op).value;
            && |link| == |uri| + |KeyParam| + |apiKey|
            && link[..|uri|] == uri
            && link[|uri|..|uri| + |KeyParam|] == KeyParam
            && link[|uri| + |KeyParam|..] == apiKey
  {
    var uri := VideoUri(op).value;
    var link := Finish(op, apiKey).value;
    assert link == uri + KeyParam + apiKey;
  }

  /** What a `generateVeoVideo` call did: whether it opened the key picker, the
      request it submitted, and how its promise settled. `Pending` is a call
      still polling when the scripted replies run out. */
  datatype JobOutcome = Resolved(url: string) | Rejected(message: string) | Pending
  datatype VideoCall = VideoCall(openedKeySelection: bool, request: VideoRequest, outcome: JobOutcome)

  /** How the promise settles once the loop has stopped. */
  function Settle(p: PollOutcome, apiKey: string): JobOutcome {
    match p
    case Waiting => Pending
    case Failed(m) => Rejected(m)
    case Done(op) =>
      match Finish(op, apiKey)
      case Ok(url) => Resolved(url)
      case Err(m) => Rejected(m)
  }

  /** The whole call, as a function of its inputs and of the scripted replies. */
  function VeoJob(imageBase64: string, prompt: string, aspectRatio: AspectRatio, studio: Studio,
                  apiKey: string, submitted: Fetch, polls: seq<Fetch>): VideoCall
  {
    VideoCall(OpensKeySelection(studio), BuildVideoRequest(imageBase64, prompt, aspectRatio),
              Settle(Poll([submitted] + polls), apiKey))
  }

  /** `generateVeoVideo`: key check, submission, then the poll loop that
      replaces the operation by each newer snapshot until one is done.
      `submitted` is the reply to `generateVideos`, `polls` the replies to the
      successive `getVideosOperation` calls; `apiKey` is `process.env.API_KEY`. */
  method GenerateVeoVideo(imageBase64: string, prompt: string, aspectRatio: AspectRatio, studio: Studio,
                          apiKey: string, submitted: Fetch, polls: seq<Fetch>) returns (call: VideoCall)
    ensures call == VeoJob(imageBase64, prompt, aspectRatio, studio, apiKey, submitted, polls)
  {
    var keyPicker := false;
    if studio.Studio? {
      if !studio.hasSelectedKey {
        keyPicker := true;
      }
    }
    var request := BuildVideoRequest(imageBase64, prompt, aspectRatio);
    var operation := submitted;
    var rest := polls;
    assert [submitted] + polls == [operation] + rest;
    while operation.Fetched? && !operation.op.done && rest != []
      invariant Poll([operation] + rest) == Poll([submitted] + polls)
      decreases |rest|
    {
      assert ([operation] + rest)[1..] == rest;
      assert rest == [rest[0]] + rest[1..];
      operation := rest[0];
      rest := rest[1..];
    }
    var outcome: JobOutcome;
    if operation.Threw? {
      outcome := Rejected(operation.message);
    } else if !operation.op.done {
      assert rest == [];
      assert ([operation] + rest)[1..] == [];
      outcome := Pending;
    } else {
      var finished := Finish(operation.op, apiKey);
      if finished.Err? {
        outcome := Rejected(finished.message);
      } else {
        outcome := Resolved(finished.value);
      }
    }
    call := VideoCall(keyPicker, request, outcome);
  }
}
