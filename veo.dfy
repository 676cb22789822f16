/** components/VeoAnimator.tsx: the image-to-video panel's state and its two
    handlers. `handleGenerate` is split at its two `await`s: the image read and
    the video call. The `await`s inside `generateVeoVideo` (the key check, the
    submission, each poll) change none of the panel's state, so the video call
    is one step. The file reader's result and the replies the video service
    gets are parameters. */
module Veo {
  import opened Types
  import opened GeminiService

  const InvalidImage := "Please upload a valid image file."
  /** The text shown for an error that carries no message. */
  const GenerationFailed := "Failed to generate video."
  const Initializing := "Initializing Veo..."
  const CheckingPermissions := "Checking permissions..."
  /** What the two-second timer writes into the progress line. */
  const Animating := "Animating... this takes about 1-2 mins..."

  /** `type.startsWith('image/')`. */
  predicate IsImageType(mimeType: string) {
    |mimeType| >= 6 && mimeType[..6] == "image/"
  }

  /** `err.message || "Failed to generate video."`: an absent or empty message
      falls back to the fixed text; the result is never empty. */
  function ErrorText(message: Option<string>): (t: string)
    ensures t != ""
    ensures message.Some? && message.value != "" ==> t == message.value
    ensures message.None? || message.value == "" ==> t == GenerationFailed
  {
    if message.Some? && message.value != "" then message.value else GenerationFailed
  }

  /** Once an operation has come back done, a rejection always carries a
      message of its own: the fixed fallback can only come from a thrown error
      without a message. */
  lemma DoneRejectionHasMessage(op: Operation, apiKey: string)
    requires Settle(Done(op), apiKey).Rejected?
    ensures Settle(Done(op), apiKey).message != ""
    ensures ErrorText(Some(Settle(Done(op), apiKey).message)) == Settle(Done(op), apiKey).message
  {
  }

  /** What `handleGenerate`'s closure captured when it was invoked. */
  datatype GenerateJob = GenerateJob(image: File, prompt: string, aspectRatio: AspectRatio)

  class VeoAnimator {
    var imageFile: Option<File>
    var imagePreview: Option<string>
    var prompt: string
    var aspectRatio: AspectRatio
    var isGenerating: bool
    var resultVideo: Option<string>
    var error: Option<string>
    var progressMessage: string

    /** No run in progress, no progress line. */
    ghost predicate Idle()
      reads this
    {
      !isGenerating && progressMessage == ""
    }

    /** The panel does not show a video and an error at once. */
    ghost predicate Exclusive()
      reads this
    {
      resultVideo.None? || error.None?
    }

    twostate predicate KeepsInputs()
      reads this
    {
      imageFile == old(imageFile) && imagePreview == old(imagePreview)
      && prompt == old(prompt) && aspectRatio == old(aspectRatio)
    }

    /** The initial `useState` values. */
    constructor ()
      ensures imageFile.None? && imagePreview.None? && prompt == "" && aspectRatio == LANDSCAPE
      ensures Idle() && resultVideo.None? && error.None?
    {
      imageFile := None;
      imagePreview := None;
      prompt := "";
      aspectRatio := LANDSCAPE;
      isGenerating := false;
      resultVideo := None;
      error := None;
      progressMessage := "";
    }

    /** `handleImageUpload`: a non-image file only sets the error; an image
        replaces the selected file and clears the previous video and error. The
        preview arrives later, through `PreviewLoaded`. */
    method HandleImageUpload(files: seq<File>)
      modifies this`imageFile, this`resultVideo, this`error
      ensures files == [] ==> imageFile == old(imageFile) && resultVideo == old(resultVideo) && error == old(error)
      ensures files != [] && !IsImageType(files[0].mimeType) ==>
                error == Some(InvalidImage) && imageFile == old(imageFile) && resultVideo == old(resultVideo)
      ensures files != [] && IsImageType(files[0].mimeType) ==>
                imageFile == Some(files[0]) && resultVideo.None? && error.None?
    {
      if files != [] {
        var file := files[0];
        if !IsImageType(file.mimeType) {
          error := Some(InvalidImage);
          return;
        }
        imageFile := Some(file);
        resultVideo := None;
        error := None;
      }
    }

    /** The preview reader's `onload`. */
    method PreviewLoaded(dataUrl: string)
      modifies this`imagePreview
      ensures imagePreview == Some(dataUrl)
    {
      imagePreview := Some(dataUrl);
    }

    /** The prompt's `onChange`. */
    method SetPrompt(text: string)
      modifies this`prompt
      ensures prompt == text
    {
      prompt := text;
    }

    /** The format buttons. */
    method SetAspectRatio(ratio: AspectRatio)
      modifies this`aspectRatio
      ensures aspectRatio == ratio
    {
      aspectRatio := ratio;
    }

    /** `handleGenerate` up to `await base64Promise`: nothing without an image;
        otherwise a run starts with the video and the error cleared. */
    method StartGenerate() returns (job: Option<GenerateJob>)
      modifies this
      ensures old(imageFile).None? ==> job.None? && unchanged(this)
      ensures old(imageFile).Some? ==>
                && job == Some(GenerateJob(old(imageFile).value, old(prompt), old(aspectRatio)))
                && isGenerating && error.None? && resultVideo.None? && progressMessage == Initializing
      ensures KeepsInputs()
    {
      if imageFile.None? {
        return None;
      }
      isGenerating := true;
      error := None;
      resultVideo := None;
      progressMessage := Initializing;
      job := Some(GenerateJob(imageFile.value, prompt, aspectRatio));
    }

    /** The image has been read (`read` is None when the reader failed, which
        rejects with an event that has no message). On success the progress
        line changes and the video call goes out with `base64`; on failure the
        run ends with the fallback error. */
    method ImageRead(read: Option<string>) returns (base64: Option<string>)
      modifies this
      ensures base64 == read
      ensures read.Some? ==>
                && progressMessage == CheckingPermissions
                && isGenerating == old(isGenerating) && error == old(error) && resultVideo == old(resultVideo)
      ensures read.None? ==> Idle() && error == Some(GenerationFailed) && resultVideo == old(resultVideo)
      ensures KeepsInputs()
    {
      base64 := read;
      if read.None? {
        error := Some(ErrorText(None));
        isGenerating := false;
        progressMessage := "";
        return;
      }
      progressMessage := CheckingPermissions;
    }

    /** The two-second timer, which fires whether or not the run is still going. */
    method AnimatingTimer()
      modifies this`progressMessage
      ensures progressMessage == Animating
    {
      progressMessage := Animating;
    }

    /** The video call has settled: show the link or the error, then end the
        run. A call still polling (`Pending`) changes nothing. */
    method VideoSettled(outcome: JobOutcome)
      modifies this
      ensures outcome.Resolved? ==> resultVideo == Some(outcome.url) && error == old(error) && Idle()
      ensures outcome.Rejected? ==> error == Some(ErrorText(Some(outcome.message))) && resultVideo == old(resultVideo) && Idle()
      ensures outcome.Pending? ==> unchanged(this)
      ensures KeepsInputs()
    {
      match outcome {
        case Pending =>
          return;
        case Resolved(url) =>
          resultVideo := Some(url);
        case Rejected(message) =>
          error := Some(ErrorText(Some(message)));
      }
      isGenerating := false;
      progressMessage := "";
    }

    /** A whole `handleGenerate` with nothing else in between (the timer left
        out): a run that ends shows exactly one of a video and an error, and a
        run still polling shows neither. */
    method HandleGenerate(read: Option<string>, studio: Studio, apiKey: string,
                          submitted: Fetch, polls: seq<Fetch>) returns (call: Option<VideoCall>)
      modifies this
      ensures old(imageFile).None? ==> call.None? && unchanged(this)
      ensures old(imageFile).Some? && read.None? ==>
                call.None? && Idle() && error == Some(GenerationFailed) && resultVideo.None?
      ensures old(imageFile).Some? && read.Some? ==>
                && call == Some(VeoJob(read.value, old(prompt), old(aspectRatio), studio, apiKey, submitted, polls))
                && match call.value.outcome
                   case Resolved(url) => resultVideo == Some(url) && error.None? && Idle()
                   case Rejected(m) => error == Some(ErrorText(Some(m))) && resultVideo.None? && Idle()
                   case Pending => isGenerating && progressMessage == CheckingPermissions
                                   && resultVideo.None? && error.None?
      ensures old(imageFile).Some? ==> Exclusive()
      ensures KeepsInputs()
    {
      call := None;
      var job := StartGenerate();
      if job.None? {
        return;
      }
      var base64 := ImageRead(read);
      if base64.None? {
        return;
      }
      var result := GenerateVeoVideo(base64.value, job.value.prompt, job.value.aspectRatio, studio, apiKey, submitted, polls);
      call := Some(result);
      VideoSettled(result.outcome);
    }
  }

  /** An invalid upload after a finished run leaves the old video on screen
      beside the new error. */
  method InvalidUploadAfterVideo() returns (video: Option<string>, shownError: Option<string>)
    ensures video == Some("v.mp4&key=k") && shownError == Some(InvalidImage)
  {
    var panel := new VeoAnimator();
    assert IsImageType("image/png") by { assert "image/png"[..6] == "image/"; }
    assert !IsImageType("text/plain") by { assert "text/plain"[..6][0] != "image/"[0]; }
    panel.HandleImageUpload([File("a.png", "image/png")]);
    var done := Operation(true, None, Some(VideoResponse(Some([GeneratedVideo(Some(Video(Some("v.mp4"))))]))));
    var call := panel.HandleGenerate(Some("aW1n"), NoStudio, "k", Fetched(done), []);
    assert Poll([Fetched(done)]) == Done(done);
    assert VideoUri(done) == Some("v.mp4");
    assert "v.mp4" + KeyParam + "k" == "v.mp4&key=k";
    assert Finish(done, "k") == Ok("v.mp4&key=k");
    assert call.value.outcome == Resolved("v.mp4&key=k");
    panel.HandleImageUpload([File("a.txt", "text/plain")]);
    video, shownError := panel.resultVideo, panel.error;
  }
}
