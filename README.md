# Tornatore Chatbot — a Dafny model of the client core

The Tornatore Chatbot is a browser application for the ISIS G.D. Romagnosi
school. It offers two tools:

- a chat assistant. It streams replies from a Gemini chat session, accepts a
  PDF as extra context, and reads replies aloud. To do that it cleans the
  markdown out of the text, asks a Gemini speech model for raw 16-bit PCM, and
  plays the PCM through Web Audio.
- a video animator. It turns an uploaded image into a short Veo video by
  submitting a long-running operation and polling it until it is done.

This project models the client-side logic of both tools and proves what that
logic promises:

| file | module | what it models |
|---|---|---|
| `types.dfy` | `Types` | the shared types: roles, messages, aspect ratios, files, and `Option`/`Result` for null and thrown errors |
| `js_text.dfy` | `JsText` | JavaScript's `\s` class and `String.prototype.trim` |
| `tts_text.dfy` | `TtsText` | `cleanTextForTTS`, pass by pass |
| `pcm.dfy` | `Pcm` | the byte copy and the Int16 decoding loops of `playMessageAudio`, as a method over arrays proved against a function |
| `gemini_service.dfy` | `GeminiService` | the `generateSpeech` payload extraction, and `generateVeoVideo` (request, key check, poll loop, result classification) |
| `chat.dfy` | `Chat` | the chat panel as a class whose methods are its handlers |
| `veo.dfy` | `Veo` | the video panel as a class whose methods are its handlers |

An async handler is split where another event can change what it does next,
and each part is a method:

- `handleSendMessage` is split after its guard and the user's message
  (`SubmitMessage`, then `ReceiveReply`). Its later `await`s (reading the file,
  opening the stream, each chunk) only feed local variables; no state of the
  panel changes between them, so they form one step.
- `playMessageAudio` is split at `await generateSpeech` (`BeginPlayback`, then
  `CompletePlayback`).
- `handleGenerate` is split at the image read and at the video call
  (`StartGenerate`, `ImageRead`, `VideoSettled`). The `await`s inside
  `generateVeoVideo` (the key check, the submission, each poll) change none of
  the panel's state, so the video call is one step.

A composite method runs the parts with nothing in between. The split also lets
the model state what happens when another event arrives in a gap, such as an
audio source's `ended` event or a second speech reply.

Remote results are parameters of the model:

- the streamed chat chunks and the error that may end the stream;
- the speech reply;
- the file reader's result;
- `atob`;
- the scripted replies of the video operation.

## Model

| member | source | states |
|---|---|---|
| Types.ParseAspectRatio | types.ts:21-24 | the only formats are "16:9" and "9:16"; the string sent to the service names exactly one format |
| JsText.IsWhitespace | components/ChatInterface.tsx:33 | JavaScript's `\s`: the WhiteSpace and LineTerminator code points, which `trim()` also removes |
| JsText.Trim | components/ChatInterface.tsx:33 | `String.prototype.trim`: drops the leading and trailing whitespace; never lengthens the string |
| JsText.TrimStart | components/ChatInterface.tsx:33 | trimming the start never lengthens the string |
| JsText.TrimEnd | components/ChatInterface.tsx:33 | trimming the end never lengthens the string |
| JsText.TrimStartDrops | components/ChatInterface.tsx:33 | the start trim drops exactly the leading whitespace: it leaves a suffix that is empty or starts with a non-whitespace character, and everything it drops is whitespace |
| JsText.TrimEndDrops | components/ChatInterface.tsx:33 | the end trim drops exactly the trailing whitespace: it leaves a prefix that is empty or ends with a non-whitespace character, and everything it drops is whitespace |
| JsText.TrimIsSlice | components/ChatInterface.tsx:33 | `trim()` returns a slice of its input that neither starts nor ends with whitespace, and only whitespace lies around the slice |
| JsText.TrimEmptyIff | components/ChatInterface.tsx:222 | `!s.trim()` holds exactly when every character of `s` is whitespace |
| TtsText.IsMarkdownMark | components/ChatInterface.tsx:27 | the character class of the first pass: `*`, `#`, `_` and the backtick |
| TtsText.IsPictograph | components/ChatInterface.tsx:31 | the emoji pattern as code points: U+E000-U+F8FF, the pairs D83C/D83D with a low surrogate (U+1F000-U+1F3FF and U+1F400-U+1F7FF), U+2580-U+27BF, and the pairs D83E DD10-DDFF (U+1F910-U+1F9FF) |
| TtsText.Remove | components/ChatInterface.tsx:27 | deleting a one-character class never lengthens the text |
| TtsText.RemoveKeeps | components/ChatInterface.tsx:27 | removal leaves only characters outside the class that were in the input: no `*`, `#`, `_` or backtick after the first pass, no pictograph after the third |
| TtsText.RemoveAppend | components/ChatInterface.tsx:27 | removal distributes over concatenation |
| TtsText.RemoveIdentityIff | components/ChatInterface.tsx:27 | removal changes the text exactly when the text contains a character of the class |
| TtsText.IndexOf | components/ChatInterface.tsx:29 | the result is the first position of the character, or None exactly when the character is absent |
| TtsText.IndexOfFirst | components/ChatInterface.tsx:29 | only the first occurrence satisfies the contract, so it is the one found |
| TtsText.LinkAt | components/ChatInterface.tsx:29 | a match of the link pattern at the start captures the text right after `[` and consumes at least `[`, the text, `](`, one URL character and `)` |
| TtsText.RewriteLinks | components/ChatInterface.tsx:29 | the link pass never lengthens the text and only copies characters of its input |
| TtsText.LinkRewritten | components/ChatInterface.tsx:29 | `[t](u)` with non-empty `t` without `]` and non-empty `u` without `)` becomes `t` |
| TtsText.LinkAtShape | components/ChatInterface.tsx:29 | every match of the link pattern has the link shape: `[`, a non-empty text without `]`, `](`, a non-empty URL without `)`, `)`; bracketed text of any other shape never matches |
| TtsText.NotLinkKept | components/ChatInterface.tsx:29 | a `[` that does not open a link is copied, and so is bracket-free text after it |
| TtsText.FootnoteKept | components/ChatInterface.tsx:29 | `"[1] x"` and `"[](u)"` pass the link pass unchanged |
| TtsText.NoBracketPrefix | components/ChatInterface.tsx:29 | text before the first `[` is copied unchanged by the link pass |
| TtsText.LinkInContext | components/ChatInterface.tsx:29 | a well-formed link after bracket-free text is rewritten to its text wherever it stands |
| TtsText.CollapseWhitespace | components/ChatInterface.tsx:33 | collapsing whitespace runs never lengthens the text |
| TtsText.CollapseEnds | components/ChatInterface.tsx:33 | collapsing keeps emptiness and keeps whether the first and the last characters are whitespace |
| TtsText.CollapseSingleSpaced | components/ChatInterface.tsx:33 | after `replace(/\s+/g, ' ')`, every whitespace character is a single U+0020 with no whitespace beside it |
| TtsText.CollapseFrom | components/ChatInterface.tsx:33 | collapsing writes no character except input characters and U+0020 |
| TtsText.CollapseWord | components/ChatInterface.tsx:33 | a run of non-whitespace characters is copied unchanged |
| TtsText.CollapseRun | components/ChatInterface.tsx:33 | a maximal whitespace run of any length and kind becomes exactly one space |
| TtsText.TrimStartRun | components/ChatInterface.tsx:33 | trimming a whitespace run followed by a non-whitespace character leaves what follows the run |
| TtsText.TrimSingleSpaced | components/ChatInterface.tsx:33 | trimming single-spaced text leaves text with no whitespace at either end and single spaces inside |
| TtsText.TrimKeeps | components/ChatInterface.tsx:33 | trimming keeps any property that every input character has |
| TtsText.NormaliseWhitespace | components/ChatInterface.tsx:33 | the fourth pass, `replace(/\s+/g, ' ').trim()`; never lengthens the text |
| TtsText.NormaliseFacts | components/ChatInterface.tsx:33 | the last pass yields single-spaced text without leading or trailing whitespace, made of input characters and U+0020 |
| TtsText.NormaliseFrom | components/ChatInterface.tsx:33 | the last pass writes only input characters and U+0020 |
| TtsText.PlainChars | components/ChatInterface.tsx:27-31 | after the first three passes the text has no markdown mark and no pictograph, and each character is U+0020 or comes from the input |
| TtsText.CleanTextForTts | components/ChatInterface.tsx:24-35 | `cleanTextForTTS`: the four passes in source order; never lengthens the text |
| TtsText.CleanTextSpeakable | components/ChatInterface.tsx:24-35 | the cleaned text has no markdown mark, no pictograph, no leading or trailing whitespace, and no whitespace except single U+0020 spaces; each character is a space or comes from the input |
| TtsText.CleanTextShape | components/ChatInterface.tsx:24-35 | bold words, a link, a pictograph and a double space around three plain words yield the three words, single-spaced |
| TtsText.CleanTextExample | components/ChatInterface.tsx:24-35 | `"**Ciao** [qui](http://x) 😀  mondo"` is cleaned to `"Ciao qui mondo"` |
| Pcm.Bytes | components/ChatInterface.tsx:169-174 | the byte array has the binary string's length, and each code unit below 256 is stored as it is; for a binary string, as `atob` returns, every byte is its code unit |
| Pcm.SignedSample | components/ChatInterface.tsx:181 | two little-endian bytes read as a two's-complement value in [-32768, 32767], negative exactly when the high byte's top bit is set |
| Pcm.Frames | components/ChatInterface.tsx:181-183 | the Int16 view exists exactly for an even byte count; then it has half as many elements, and element i is bytes 2i and 2i+1 read as a signed sample |
| Pcm.Normalise | components/ChatInterface.tsx:189 | `dataInt16[i] / 32768.0`, as an exact real |
| Pcm.Samples | components/ChatInterface.tsx:181-190 | the channel data: the Int16 view's frames, each normalised, or nothing when the view cannot be built |
| Pcm.DecodePcm | components/ChatInterface.tsx:169-190 | the two loops over the arrays produce exactly the normalised samples of the string's bytes, or fail on an odd byte count |
| Pcm.SamplesLength | components/ChatInterface.tsx:181-183 | decoding succeeds exactly on an even byte count, with frameCount = byteLength / 2 |
| Pcm.SamplesInRange | components/ChatInterface.tsx:187-190 | every decoded sample lies in [-1, 32767/32768] |
| Pcm.NormaliseInRange | components/ChatInterface.tsx:189 | dividing a 16-bit value by 32768 lands in [-1, 32767/32768] |
| Pcm.SamplesInjective | components/ChatInterface.tsx:181-190 | decoding loses no byte: two byte strings with the same decoded samples are equal |
| Pcm.Encode | components/ChatInterface.tsx:181 | every 16-bit value has little-endian bytes that read back as it |
| Pcm.SignedSampleEncode | components/ChatInterface.tsx:181 | encoding a read sample returns the two bytes it came from |
| Pcm.EncodeFrames | components/ChatInterface.tsx:181 | a sample sequence has a byte stream twice as long whose pairs encode the samples |
| Pcm.FramesEncode | components/ChatInterface.tsx:181-183 | the Int16 view of an encoded stream is the encoded samples |
| Pcm.DecodeExample | components/ChatInterface.tsx:169-190 | the bytes 00 00 00 80 decode to the samples 0.0 and -1.0 |
| Pcm.DecodeOddFails | components/ChatInterface.tsx:181 | three bytes cannot be decoded |
| GeminiService.AudioData | services/geminiService.ts:93 | `response.candidates?.[0]?.content?.parts?.[0]?.inlineData?.data`, absent when any level is missing |
| GeminiService.AudioDataOfReply | services/geminiService.ts:93 | the payload is the inline data of candidate 0, part 0, whatever the other candidates and parts hold |
| GeminiService.AudioDataAbsent | services/geminiService.ts:93 | a reply with no candidates, or whose first candidate has no content or no parts, has no payload |
| GeminiService.GenerateSpeech | services/geminiService.ts:93-98 | an SDK error is passed through; a missing or empty payload throws "No audio data returned from Gemini TTS"; otherwise the payload is returned, so a returned payload is never empty |
| GeminiService.GenerateSpeechOfReply | services/geminiService.ts:93-98 | a reply built around a non-empty payload yields that payload |
| GeminiService.BuildVideoRequest | services/geminiService.ts:118-130 | the request names the Veo model, sends the prompt or "Animate this image naturally" when the prompt is empty, carries the image as image/png, and asks for one 720p video in the chosen format |
| GeminiService.OpensKeySelection | services/geminiService.ts:107-114 | the key picker opens exactly when AI Studio is present and has no key selected |
| GeminiService.Poll | services/geminiService.ts:133-136 | the loop `while (!operation.done)` over the scripted replies: the first done snapshot, the first thrown error, or still waiting |
| GeminiService.PollStopsAt | services/geminiService.ts:133-136 | the loop stops at the first call that yields a done snapshot or throws, and yields that snapshot or that error |
| GeminiService.PollResultAt | services/geminiService.ts:133-136 | every result of the loop comes from the first stopping call; the loop is still waiting exactly when no call in the script stops it |
| GeminiService.VideoUri | services/geminiService.ts:142 | `operation.response?.generatedVideos?.[0]?.video?.uri`, absent when any level is missing |
| GeminiService.Finish | services/geminiService.ts:138-148 | on a done operation the error is checked first: its message, or "Video generation failed" when the message is empty. With no error, a missing or empty URI throws "No video URI returned"; otherwise the result is the URI, then "&key=", then the key |
| GeminiService.ErrorBeforeUri | services/geminiService.ts:138-140 | an operation error is reported even when a URI is present |
| GeminiService.KeyedLink | services/geminiService.ts:148 | the download link splits back into the URI, "&key=" and the key |
| GeminiService.Settle | services/geminiService.ts:133-148 | how the call's promise settles once the loop stops: a thrown error rejects with its message, a done snapshot resolves or rejects as `Finish` says, and a loop still waiting leaves it pending |
| GeminiService.VeoJob | services/geminiService.ts:101-149 | the whole call as a function of its inputs and the scripted replies: whether the key picker opens, the request, and how it settles |
| GeminiService.GenerateVeoVideo | services/geminiService.ts:101-149 | the method (key check, submission, the loop that reassigns the operation, classification) does exactly what the whole call is specified to do on the scripted replies |
| Chat.ChunkText | components/ChatInterface.tsx:254-256 | what `responseText += chunk.text` appends: the chunk's text, or "undefined" when the text is undefined (JavaScript's string coercion) |
| Chat.Concat | components/ChatInterface.tsx:243-265 | the chunks' texts joined in arrival order, starting from "" |
| Chat.ConcatAppend | components/ChatInterface.tsx:254-256 | joining the chunks distributes over splitting the stream |
| Chat.ConcatChunkAt | components/ChatInterface.tsx:254-256 | each chunk's text sits in the reply right after the texts of the chunks before it, in arrival order |
| Chat.AccumulateStream | components/ChatInterface.tsx:243-265 | the `for await` loop yields the chunk texts joined in arrival order |
| Chat.Blocked | components/ChatInterface.tsx:222 | the guard: the trimmed input is blank and no file is attached, or a reply is pending |
| Chat.UserMessageText | components/ChatInterface.tsx:235 | the USER bubble's text: the trimmed input, else "Inviato file: " and the file name when a file is attached, else empty |
| Chat.UserMessageShown | components/ChatInterface.tsx:222-235 | a send that passes the guard shows the trimmed input, or "Inviato file: " and the file name when the input is blank; the text is never empty |
| Chat.RequestFor | components/ChatInterface.tsx:245-261 | the request sent to the session captured at submit time: the text alone, or the PDF read with the text or the fixed document prompt; nothing when the read fails |
| Chat.DocumentRequestText | components/ChatInterface.tsx:245-252 | a PDF is sent with the typed text or the fixed document prompt, never with an empty text |
| Chat.Speaks | components/ChatInterface.tsx:277 | auto-play: the reply was received, the panel is not muted and the reply text is non-empty |
| Chat.ReplyMessage | components/ChatInterface.tsx:268-289 | the appended message is a MODEL message. It is an error exactly when the request could not be sent or the stream failed, and then it is the fixed apology; otherwise it is the joined chunks |
| Chat.FailedStreamDiscardsChunks | components/ChatInterface.tsx:281-289 | a stream that fails after some chunks appends the apology alone |
| Chat.SpeechAudio | components/ChatInterface.tsx:163-190 | the samples that reach a buffer are never empty and lie in [-1, 32767/32768] |
| Chat.SpeechAudioPlays | components/ChatInterface.tsx:166-190 | a payload that decodes to an even, non-zero byte count plays exactly the samples of those bytes, half as many as the bytes |
| Chat.SpeechAudioRejects | components/ChatInterface.tsx:181-184 | an odd or empty byte string ends in the failure path |
| Chat.ChatInterface.constructor | components/ChatInterface.tsx:42-62 | the panel starts with only the welcome message, empty input, no session, no file, nothing playing, not muted |
| Chat.ChatInterface.Mount | components/ChatInterface.tsx:67-75 | mounting creates a new session and, when the browser has Web Audio, the audio context; nothing else changes |
| Chat.ChatInterface.StopAudio | components/ChatInterface.tsx:105-116 | from any state: no source held, nothing loading, nothing marked as playing; the held source stops being heard; nothing else changes, and the audio state is unchanged when nothing was playing |
| Chat.ChatInterface.ToggleMute | components/ChatInterface.tsx:118-121 | the audio stops and auto-play flips. Only the held source stops being heard: a source started without being held, or no longer held, keeps playing |
| Chat.ChatInterface.ClearChat | components/ChatInterface.tsx:123-140 | the audio stops, the history is exactly the welcome message, the input and the file are cleared, and a new session is opened. Only the held source stops being heard: a source started without being held, or no longer held, keeps playing |
| Chat.ChatInterface.HandleFileSelect | components/ChatInterface.tsx:90-99 | only an application/pdf file is attached; any other file raises the alert and leaves the attachment unchanged |
| Chat.ChatInterface.ClearFile | components/ChatInterface.tsx:101-103 | the attachment is removed |
| Chat.ChatInterface.SetInput | components/ChatInterface.tsx:438 | the input holds the typed text |
| Chat.ChatInterface.BeginPlayback | components/ChatInterface.tsx:142-166 | clicking the playing message stops it. Otherwise the audio stops first; with no audio context the panel stays silent; with one, the message is marked as loading and playing, and its cleaned text is sent. The held source stops being heard, so nothing is heard when only the held source was |
| Chat.ChatInterface.CompletePlayback | components/ChatInterface.tsx:166-209 | a decodable reply starts a new source holding its samples and adds it to what is heard, without stopping a source already held; any failure clears the playing mark; loading ends either way |
| Chat.ChatInterface.CompletePlaybackGuarded | components/ChatInterface.tsx:166-209 | the corrected completion: the held source is stopped before the new one starts, so when only the held source was heard, at most one source is heard afterwards |
| Chat.ChatInterface.PlayMessageAudio | components/ChatInterface.tsx:142-210 | the toggle, the stop-first rule, the no-context return, and success (message playing, source held) or failure (nothing playing); loading false at the end; the old held source stops being heard and only the new one is added, so when only the held source was heard, at most one source is heard afterwards |
| Chat.ChatInterface.OnEnded | components/ChatInterface.tsx:196-199 | the handler as written clears the playing mark and the held source whichever source ended; a held source that did not end is still heard with no reference to it |
| Chat.ChatInterface.OnEndedGuarded | components/ChatInterface.tsx:196-199 | the guarded handler clears the state only when the held source ends; the loading indicator keeps its message, and only the held source stays heard |
| Chat.ChatInterface.SubmitMessage | components/ChatInterface.tsx:215-240 | a session exists afterwards. Blank input with no file, or a reply pending, changes nothing else. Otherwise the audio stops, the input and the file are cleared, the USER message with the trimmed text or the file note is appended, and a reply is pending; only the held source stops being heard |
| Chat.ChatInterface.Dispatch | components/ChatInterface.tsx:224-240 | an accepted send stops the audio, clears the input and the file, appends exactly the USER message and marks a reply as pending; only the held source stops being heard |
| Chat.ChatInterface.ReceiveReply | components/ChatInterface.tsx:242-292 | the request sent to the session captured at submit time; exactly one MODEL message appended (the joined chunks or the apology); the pending mark cleared; reading aloud starts exactly when not muted and the reply is non-empty, and then only the held source stops being heard |
| Chat.ChatInterface.ReceiveAndPlay | components/ChatInterface.tsx:242-292 | the continuation followed by the speech reply: as `ReceiveReply`, with the playback finished; when it reads aloud, the held source stops being heard and only the new source, if one starts, is added |
| Chat.ChatInterface.HandleSendMessage | components/ChatInterface.tsx:212-293 | a blocked send changes only the session; otherwise the history grows by exactly the USER message and then one MODEL message, input and file are cleared, nothing is pending, and auto-play follows the mute setting; the held source stops being heard and only the new source, if one starts, is added |
| Chat.StaleEndedAsWritten | components/ChatInterface.tsx:196-199 | with the handler as written, a stopped source's late `ended` event unmarks the loading message and leaves a source held with nothing marked as playing |
| Chat.ReplyAfterClear | components/ChatInterface.tsx:123-140 | after `clearChat` while a reply is pending, the message went to the old session and its reply is appended to the cleared history after the welcome message |
| Chat.OverlapAsWritten | components/ChatInterface.tsx:142-202 | toggling m1 off while it loads, clicking m2, then receiving both speech replies leaves both sources heard, with only m2's held |
| Chat.OverlapGuarded | components/ChatInterface.tsx:142-202 | with the corrected completion, the same events leave only m2's source heard, and it is held |
| Chat.StaleEndedGuarded | components/ChatInterface.tsx:196-199 | with the guarded handler, the same events leave the second message marked as playing while its source is held |
| Veo.IsImageType | components/VeoAnimator.tsx:23 | `type.startsWith('image/')` |
| Veo.ErrorText | components/VeoAnimator.tsx:56 | the error shown is the message, or "Failed to generate video." when the message is absent or empty; it is never empty |
| Veo.DoneRejectionHasMessage | services/geminiService.ts:138-145 | a done operation that is rejected always carries a message of its own, so the panel shows it unchanged |
| Veo.VeoAnimator.constructor | components/VeoAnimator.tsx:11-18 | the panel starts with no image, an empty prompt, landscape format, no run, no video and no error |
| Veo.VeoAnimator.HandleImageUpload | components/VeoAnimator.tsx:20-29 | a non-image file only sets "Please upload a valid image file."; an image replaces the file and clears the video and the error |
| Veo.VeoAnimator.PreviewLoaded | components/VeoAnimator.tsx:30-32 | the preview holds the data URL read |
| Veo.VeoAnimator.SetPrompt | components/VeoAnimator.tsx:130 | the prompt holds the typed text |
| Veo.VeoAnimator.SetAspectRatio | components/VeoAnimator.tsx:148 | the chosen format is stored |
| Veo.VeoAnimator.StartGenerate | components/VeoAnimator.tsx:36-41 | without an image nothing changes; otherwise a run starts with the video and error cleared and "Initializing Veo..." shown |
| Veo.VeoAnimator.ImageRead | components/VeoAnimator.tsx:43-50 | a successful read shows "Checking permissions..."; a failed read ends the run with the fallback error |
| Veo.VeoAnimator.AnimatingTimer | components/VeoAnimator.tsx:51 | the timer writes the animating message whether or not a run is going |
| Veo.VeoAnimator.VideoSettled | components/VeoAnimator.tsx:52-60 | success shows the link, failure shows the error text, and either way the run ends with no progress line |
| Veo.VeoAnimator.HandleGenerate | components/VeoAnimator.tsx:36-61 | the whole handler: nothing without an image; otherwise the video call runs on the read image with the prompt and format, and a run that ends shows exactly one of a video and an error and is idle |
| Veo.InvalidUploadAfterVideo | components/VeoAnimator.tsx:20-26 | an invalid upload after a finished run leaves the old video on screen beside the new error |

## Left out

- Rendering, styling and auto-scroll are not modelled (components/ChatInterface.tsx:85-88 and the JSX; components/VeoAnimator.tsx from line 67). The input, prompt, format and clear-file controls are modelled as the small setter methods they call.
- App.tsx, a tab switch and a theme toggle, is not part of this model. Neither are the system prompts in services/geminiService.ts:8-62.
- The Gemini SDK is foreign code. `createSchoolChat` becomes a session counter; `sendMessageStream`, `generateContent`, `generateVideos` and `getVideosOperation` become scripted inputs.
- Browser I/O is abstract:
  - `readFileBase64` and the image reader become a result parameter;
  - `atob` becomes a function parameter;
  - the audio context is a flag, and a started source is a fresh handle with its samples. `resume()` (components/ChatInterface.tsx:155-157) is not modelled.
- Timers and the clock are not modelled: the 5 s poll delay, the 1 s wait after the key picker, and `Date.now()`. Message ids and timestamps are parameters.
- The 2 s progress timer is modelled as `Veo.VeoAnimator.AnimatingTimer`, but `Veo.VeoAnimator.HandleGenerate` runs without it. The timer can still fire after the run has ended.
- Float32 storage of the samples is modelled as exact reals. Each sample is a multiple of 1/32768 within [-1, 1], so a Float32 holds it exactly.
- React batches state updates and handlers read state from closures. The model applies every update at once and reads the current state. In particular, `isMuted` and `playingMessageId` are read when the continuation runs, not when the handler was created.
- Chat.ChatInterface.HandleSendMessage: also finishes the playback it starts. The source does not await `playMessageAudio`; `Chat.ChatInterface.ReceiveReply` is the handler on its own.
- `await resume()` (components/ChatInterface.tsx:155-157) is not a split point: the audio context is taken to be running. An event arriving while a suspended context resumes, after `stopAudio` and before the loading mark is set, is not modelled.
- Which sources are heard (`Chat.ChatInterface.audible`) is model state with no variable in the source: it stands for the Web Audio graph, where a started source plays until it is stopped or ends.
- The `console.error` logging (components/ChatInterface.tsx:205, components/ChatInterface.tsx:282, components/VeoAnimator.tsx:55) is not modelled; it changes no state.
- The buffer's sample rate (24000 Hz) and channel count (1) are not modelled; the decoded samples are the channel's contents.
- The unmount cleanup (components/ChatInterface.tsx:77-82) is not modelled.
- A throwing `hasSelectedApiKey` or `openSelectKey` (services/geminiService.ts:107-114) is not modelled. Only whether the picker is opened is modelled.
- `handleApiKeyConfig` (components/VeoAnimator.tsx:63-65), which only opens the key picker, is not modelled.
- The poll loop has no attempt bound. A finite script stands for the replies; a script that ends before a done snapshot yields `Pending`, a call still in progress.
- `generateVeoVideo` reads the key from `process.env.API_KEY`. Here it is a string parameter, so an undefined key (which would print as "undefined") is not modelled.
- Veo.VeoAnimator.HandleGenerate: ensures that a video and an error are not both shown only after a run ends. An invalid upload later sets the error beside an earlier video (`Veo.InvalidUploadAfterVideo`), so the two are not exclusive at all times. The model follows the code here.
- The `VideoGenerationState` type of types.ts:14-19 is not used by the core and is not modelled.
- Stale-response isolation is not modelled, because the source has none. A reply arriving after `clearChat` is appended to the new history, and `handleGenerate` has no re-entrancy guard. `Chat.ReplyAfterClear` shows the chat case.

## Findings

| source | as written | input that shows it | evidently intended | confidence | as-written member | corrected member |
|---|---|---|---|---|---|---|
| components/ChatInterface.tsx:196-199 | every source's `onended` clears the playing mark and the held source, whichever source ended | play message m1; while it plays, click m2. `stopAudio` stops m1's source, and Web Audio then fires m1's `ended` event while m2's speech is loading | only the end of the source currently held clears the playing state | medium, not executed | Chat.StaleEndedAsWritten (with Chat.ChatInterface.OnEnded) | Chat.StaleEndedGuarded (with Chat.ChatInterface.OnEndedGuarded) |
| components/ChatInterface.tsx:201 | a new source is started and stored in `audioSourceRef` without stopping the source the ref already holds | click m1, click m1 again while its speech loads (the toggle stops nothing yet), click m2; m1's speech reply arrives, then m2's. The same happens when auto-play starts while a clicked message's speech loads | only one source is heard at a time: the held source is stopped before a new one is stored | medium, not executed | Chat.OverlapAsWritten (with Chat.ChatInterface.CompletePlayback) | Chat.OverlapGuarded (with Chat.ChatInterface.CompletePlaybackGuarded) |
