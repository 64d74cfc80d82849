# Video template editor: timeline and frame model

A Dafny model of the core of a browser-based editor for short vertical quote
videos. A template holds a background, an ordered list of timed, styled and
animated text elements, an audio track and the canvas settings (width,
height, frames per second). The model covers:

- the **frame evaluator** shared by export (`drawFrameAtTime`) and live
  preview (`drawTextElements`): which elements are visible at time `t`, their
  animation progress, the opacity / scale / vertical offset of each animation
  kind, the pixel position and the y-coordinate of every line of multi-line
  text. It returns layer records (`FrameEvaluator.Frame`) in place of canvas
  calls;
- the **export driver**: the frame-stepped loop that draws frame `k` at
  `k / fps` while that time lies before the end and reports progress after
  each frame, the setup failures, the bitrate choice and the download file
  name;
- the **preview driver**: the playback clock (start, tick with clamp and
  auto-stop, pause, reset, cancellation of the pending frame request), the
  "m:ss" time display and the progress bar;
- the **template updaters**: the initial template, the shallow merge of a
  partial template, update-by-id, append and remove-by-id of text elements;
- the **upload decisions**: MIME-prefix and size checks, the background kind,
  and the patches for uploading and removing background media and audio.

Numbers are exact reals; canvas dimensions are natural numbers. Clock
readings (`Date.now()`), whether the canvas and its 2D context exist, and
whether the browser decodes the background file as an image are
parameters. The preview's object URL and what its canvas currently holds
are state of `VideoPreview.PreviewPlayer`.

Files: `wrappers.dfy` (Option, Result), `text.dfy` (decimal text, prefix
test, whitespace runs), `real_division.dfy` (division facts),
`video_template.dfy` (data model), `template_hook.dfy`,
`frame_evaluator.dfy`, `video_exporter.dfy`, `video_preview.dfy`,
`media_upload.dfy`.

Points where the code behaves in ways worth noting, which the model follows:

- Export never shows the background media: both branches of the background
  test in `drawFrameAtTime` paint the same gradient
  (`FrameEvaluator.ExportFrame`, `FrameEvaluator.ExportIgnoresBackground`).
- The preview draws its text only after the background image has loaded.
  An object URL that never loads as an image leaves the cleared canvas
  blank, text included. Two cases reach this: a file the browser does not
  decode as an image (a video, in most browsers), and any template after
  the background has been removed, because the revoked URL stays in state
  (`VideoPreview.UndecodedBackgroundBlanksPreview`,
  `VideoPreview.RemovedBackgroundBlanksPreview`). A repaint therefore draws
  the export's text layers only when the preview holds no URL or its image
  loads, and the export's whole frame only when it holds no URL.
- The preview canvas is repainted only when the URL string, the current
  time or the text-element array changes. Removing the background keeps the
  URL string, so the old picture stays until the next repaint. Changing the
  width or height clears the canvas and nothing repaints it, so a paused
  preview stays blank until one of those three changes
  (`VideoPreview.PreviewPlayer.Resized`, `VideoPreview.PreviewPlayer.PlayPause`).
- Progress is `min((t - start) / (duration || 1), 1)` with no lower clamp;
  a negative animation duration is used as it is.
- The reported export progress is `(k + 1) / (duration * fps) * 100` after
  frame `k`. It ends at exactly 100 when `duration * fps` is a whole number;
  otherwise the last report lies above 100.
- A missing canvas is not reported as a failure state: the export returns
  before any state changes. A missing 2D context, a negative frame rate
  (which `captureStream` refuses, per the Media Capture from DOM Elements
  specification) and an audio track with a file whose volume is absent or
  outside [0, 1] (which the audio element's `volume` refuses) all throw
  during setup; the error is caught and resets `isExporting` and the
  progress (`VideoExporter.SetupThrows`).
- The audio track's `volume` is declared required, but spreading an absent
  track (`{ ...template.audioTrack, file }`) yields a track without one, so
  the model keeps it optional (`VideoTemplateTypes.AudioTrack`). With such a
  track exports fail until the volume slider sets a volume
  (`VideoExporter.FirstAudioUploadFailsExport`,
  `VideoExporter.VolumeSliderRepairsTrack`). No handler removes the track,
  so this state cannot be reached from the starting template, whose track
  has volume 0.7 (`VideoExporter.InitialAudioUploadExports`).

## Model

| member | source | states |
|---|---|---|
| `Text.NatToDecimal` | src/components/VideoEditor/VideoExporter.tsx:166 | the decimal text of the timestamp: at least one digit, only digits, a leading zero only for 0 |
| `Text.DecimalRoundTrip` | src/components/VideoEditor/VideoExporter.tsx:166 | reading the decimal text back gives the number |
| `Text.IntToDecimal` | src/components/VideoEditor/VideoPreview.tsx:171-173 | an integer's text is its digits, after a minus sign when negative |
| `Text.StartsWithConcat` | src/components/VideoEditor/MediaUpload.tsx:26 | `startsWith(prefix)` holds exactly when the text is the prefix followed by something |
| `Text.ReplaceSpaceRuns` | src/components/VideoEditor/VideoExporter.tsx:166 | the replacement never lengthens the name and is empty only for an empty name |
| `Text.ReplaceSpaceRunsNoSpace` | src/components/VideoEditor/VideoExporter.tsx:166 | `replace(/\s+/g, '_')` leaves no whitespace character |
| `Text.ReplaceSpaceRunsIdentity` | src/components/VideoEditor/VideoExporter.tsx:166 | a name without whitespace is kept as it is |
| `Text.ReplaceSpaceRunsIdempotent` | src/components/VideoEditor/VideoExporter.tsx:166 | replacing twice equals replacing once |
| `Text.ReplaceSpaceRunsConcat` | src/components/VideoEditor/VideoExporter.tsx:166 | the replacement works piecewise across a boundary after a non-whitespace character |
| `Text.ReplaceSpaceRunsRun` | src/components/VideoEditor/VideoExporter.tsx:166 | a whole run of whitespace becomes exactly one underscore |
| `TemplateHook.InitialTemplate` | src/hooks/useVideoTemplate.ts:5-46 | duration 10, 1080x1920 at 30 fps, image background without file, audio volume 0.7 without file, one 'quote-text' element timed 1..9 with a one-second fade-in |
| `TemplateHook.UpdateTemplate` | src/hooks/useVideoTemplate.ts:48-50 | every field the patch carries is overwritten, every other field is unchanged |
| `TemplateHook.UpdateTemplateEmpty` | src/hooks/useVideoTemplate.ts:48-50 | an empty patch changes nothing |
| `TemplateHook.UpdateTemplateCompose` | src/hooks/useVideoTemplate.ts:48-50 | two successive merges equal one merge with the composed patch |
| `TemplateHook.UpdateTemplateIdempotent` | src/hooks/useVideoTemplate.ts:48-50 | applying the same patch twice equals applying it once |
| `TemplateHook.MergeElement` | src/hooks/useVideoTemplate.ts:55-57 | shallow element merge: a patched nested object (style, position, animation, timing) replaces the old one whole; unpatched fields are kept |
| `TemplateHook.UpdateTextElement` | src/hooks/useVideoTemplate.ts:52-58 | same length and order, elements with the id merged, all others identical, other template fields unchanged |
| `TemplateHook.UpdateTextElementUnknownId` | src/hooks/useVideoTemplate.ts:52-58 | an id no element carries leaves the template unchanged |
| `TemplateHook.UpdateTextElementKeepsIds` | src/hooks/useVideoTemplate.ts:55-57 | a patch without an id keeps every element's id |
| `TemplateHook.AddTextElement` | src/hooks/useVideoTemplate.ts:61-65 | appends at the end: one longer, earlier prefix unchanged, other template fields unchanged |
| `TemplateHook.WithoutId` | src/hooks/useVideoTemplate.ts:71 | the filter never lengthens the list |
| `TemplateHook.WithoutIdMembers` | src/hooks/useVideoTemplate.ts:71 | an element is kept iff it was present and its id differs |
| `TemplateHook.WithoutIdAppend` | src/hooks/useVideoTemplate.ts:71 | filtering distributes over concatenation, so kept elements stay in order |
| `TemplateHook.WithoutIdAbsent` | src/hooks/useVideoTemplate.ts:71 | filtering out an absent id keeps the list |
| `TemplateHook.RemoveTextElement` | src/hooks/useVideoTemplate.ts:68-72 | no element with the id remains, every other element remains, other template fields unchanged |
| `TemplateHook.RemoveTextElementIdempotent` | src/hooks/useVideoTemplate.ts:68-72 | removing twice equals removing once |
| `TemplateHook.RemoveTextElementAbsent` | src/hooks/useVideoTemplate.ts:68-72 | removing an absent id is a no-op |
| `TemplateHook.RemoveAfterAdd` | src/hooks/useVideoTemplate.ts:61-72 | appending an element with a fresh id and removing that id gives back the template |
| `FrameEvaluator.Visible` | src/components/VideoEditor/VideoExporter.tsx:49 | an element is drawn only when its start is not after its end; with start = end, exactly at that instant |
| `FrameEvaluator.RampDuration` | src/components/VideoEditor/VideoExporter.tsx:52 | `animation?.duration \|\| 1`: never zero; a missing animation or zero duration counts as 1 |
| `FrameEvaluator.Min1` | src/components/VideoEditor/VideoExporter.tsx:51-54 | `Math.min(x, 1)` is at most 1 and at most x, and is one of them |
| `FrameEvaluator.Progress` | src/components/VideoEditor/VideoExporter.tsx:51-54 | progress never exceeds 1, is 0 at the start time, is at least 0 once started (positive ramp) and is 1 once the ramp is over |
| `FrameEvaluator.ProgressDuringRamp` | src/components/VideoEditor/VideoExporter.tsx:51-54 | during the ramp, progress is the elapsed fraction of the ramp, in [0, 1) |
| `FrameEvaluator.AnimationEffect` | src/components/VideoEditor/VideoExporter.tsx:57-75 | fade-in: opacity p; scale-in: opacity p, scale 0.5 + 0.5p; slide-in: opacity p, offset (1 - p) * 50; none or absent: opacity 1, scale 1, offset 0 |
| `FrameEvaluator.EffectSettles` | src/components/VideoEditor/VideoExporter.tsx:57-75 | at progress 1 every kind settles to opacity 1, scale 1, offset 0 |
| `FrameEvaluator.EffectStartsTransparent` | src/components/VideoEditor/VideoExporter.tsx:61-75 | at progress 0 every animated kind has opacity 0 |
| `FrameEvaluator.EffectBounds` | src/components/VideoEditor/VideoExporter.tsx:57-75 | for progress in [0, 1]: opacity in [0, 1], scale in [0.5, 1], offset in [0, 50] |
| `FrameEvaluator.EffectMonotone` | src/components/VideoEditor/VideoExporter.tsx:57-75 | as progress grows, opacity and scale never shrink and the offset never grows |
| `FrameEvaluator.SplitLines` | src/components/VideoEditor/VideoExporter.tsx:99 | `split('\n')` gives at least one line, none containing a line break |
| `FrameEvaluator.SplitLinesCount` | src/components/VideoEditor/VideoExporter.tsx:99 | there is one more line than there are line breaks |
| `FrameEvaluator.JoinSplitLines` | src/components/VideoEditor/VideoExporter.tsx:99 | joining the lines with '\n' gives back the text |
| `FrameEvaluator.SplitJoinLines` | src/components/VideoEditor/VideoExporter.tsx:99 | splitting joined lines without line breaks gives back the lines |
| `FrameEvaluator.LineSpacing` | src/components/VideoEditor/VideoExporter.tsx:100-105 | consecutive lines are exactly one line height apart |
| `FrameEvaluator.LineSymmetry` | src/components/VideoEditor/VideoExporter.tsx:100-105 | the block of lines is symmetric about y |
| `FrameEvaluator.ElementLayer` | src/components/VideoEditor/VideoExporter.tsx:48-107 | a layer exists iff start <= t <= end; its effect is the animation's at the current progress; x = px/100 * width, y = py/100 * height + offset; font size fontSize * scale; line height 1.2 times that; line i of the split text at y + (i - (n - 1)/2) * lineHeight |
| `FrameEvaluator.SettledLayer` | src/components/VideoEditor/VideoExporter.tsx:48-82 | after the ramp an element is opaque, at full font size and at its own y position |
| `FrameEvaluator.TextLayers` | src/components/VideoEditor/VideoExporter.tsx:48-109 | at most one layer per element |
| `FrameEvaluator.TextLayersAppend` | src/components/VideoEditor/VideoExporter.tsx:48 | layers follow element order: the layers of a concatenation are the concatenated layers |
| `FrameEvaluator.TextLayersIds` | src/components/VideoEditor/VideoExporter.tsx:48-49 | every layer comes from a visible element, and every visible element contributes its layer |
| `FrameEvaluator.TextLayersSingle` | src/components/VideoEditor/VideoExporter.tsx:48-49 | a single element gives its layer when visible and nothing otherwise |
| `FrameEvaluator.ExportFrame` | src/components/VideoEditor/VideoExporter.tsx:26-110 | the export frame is the gradient followed by the text layers of the template at t on a canvas of the template's size |
| `FrameEvaluator.PreviewFrame` | src/components/VideoEditor/VideoPreview.tsx:32-59 | the gradient without an object URL, the image once it loads, and a blank canvas without any text when it never loads |
| `FrameEvaluator.PreviewExportParity` | src/components/VideoEditor/VideoPreview.tsx:32-124 | preview and export draw the same text layers at the same time unless the image never loads, and the same frame without an object URL; the hanging case, where the preview has no text, is shown for contrast |
| `FrameEvaluator.ExportIgnoresBackground` | src/components/VideoEditor/VideoExporter.tsx:31-45 | the export frame does not depend on the background media |
| `FrameEvaluator.QuoteOpacity` | src/hooks/useVideoTemplate.ts:14-39 | the starting quote's opacity while visible is min(t - 1, 1) |
| `FrameEvaluator.InitialTemplateTimeline` | src/hooks/useVideoTemplate.ts:14-39 | the starting quote is absent before 1 and after 9, transparent at 1, half visible at 1.5, opaque from 2 to 9 |
| `VideoExporter.ExportSettingsFor` | src/components/VideoEditor/VideoExporter.tsx:20-24 | export settings are mp4, high quality, the template's fps |
| `VideoExporter.Bitrate` | src/components/VideoEditor/VideoExporter.tsx:147-148 | 5000000, 2500000 or 1000000 bits per second for high, medium or low |
| `VideoExporter.ExportBitrate` | src/components/VideoEditor/VideoExporter.tsx:147-148 | bitrates increase with quality and every export uses 5000000 |
| `VideoExporter.DownloadName` | src/components/VideoEditor/VideoExporter.tsx:166 | the file name has no whitespace, starts with the name with whitespace runs replaced, then '_', and ends in ".webm" |
| `VideoExporter.DownloadNameTimestamp` | src/components/VideoEditor/VideoExporter.tsx:166 | the digits between the underscore and ".webm" read back as the timestamp |
| `VideoExporter.FrameTime` | src/components/VideoEditor/VideoExporter.tsx:186 | frame k is drawn at a time that is not negative and that is k frames at the frame rate |
| `VideoExporter.ProgressAfter` | src/components/VideoEditor/VideoExporter.tsx:196 | the report after frame k is positive, and multiplied by the total frame count `duration * fps` it gives (k + 1) * 100 |
| `VideoExporter.FrameCount` | src/components/VideoEditor/VideoExporter.tsx:185-191 | exactly the frames k with k / fps < duration are drawn |
| `VideoExporter.RenderExportFrames` | src/components/VideoEditor/VideoExporter.tsx:181-202 | the loop draws FrameCount frames, frame k being the export frame at k / fps, and reports (k + 1) / (duration * fps) * 100 after frame k |
| `VideoExporter.ProgressIncreasing` | src/components/VideoEditor/VideoExporter.tsx:195-196 | the reported progress strictly increases |
| `VideoExporter.ProgressEndsAtHundred` | src/components/VideoEditor/VideoExporter.tsx:182-196 | when duration * fps is whole, exactly that many frames are drawn and the last report is exactly 100 |
| `VideoExporter.TenSecondsAtThirtyFps` | src/components/VideoEditor/VideoExporter.tsx:181-196 | 10 s at 30 fps draws 300 frames, the last at 299/30, ending at 100 |
| `VideoExporter.ExportSession.constructor` | src/components/VideoEditor/VideoExporter.tsx:14-18 | not exporting, progress 0, nothing recorded |
| `VideoExporter.FirstAudioUploadFailsExport` | src/components/VideoEditor/MediaUpload.tsx:65-70 | an audio upload into a template without a track leaves a track whose missing volume the export's `audio.volume` assignment (VideoExporter.tsx:135-138) refuses |
| `VideoExporter.VolumeSliderRepairsTrack` | src/pages/Index.tsx:166-183 | once the track has a file, the slider's volume in [0, 1] makes the track acceptable to the export |
| `VideoExporter.InitialAudioUploadExports` | src/hooks/useVideoTemplate.ts:37-41 | an accepted audio upload into the starting template keeps volume 0.7, which the export accepts |
| `VideoExporter.ExportSession.ExportVideo` | src/components/VideoEditor/VideoExporter.tsx:112-210 | no canvas: nothing changes; a setup step that throws (no context, negative fps, refused audio volume): exporting false and progress 0 after reporting 0, nothing recorded; otherwise the recorded frames are the loop's, progress goes 0, the loop's reports, 0, and the file is named by DownloadName |
| `VideoPreview.Elapsed` | src/components/VideoEditor/VideoPreview.tsx:135 | the elapsed seconds are the millisecond difference over 1000, never negative once the clock has passed the reference |
| `VideoPreview.PlayReference` | src/components/VideoEditor/VideoPreview.tsx:132 | at the moment playback starts the clock reads the current time |
| `VideoPreview.ResumeContinues` | src/components/VideoEditor/VideoPreview.tsx:132-135 | after ms milliseconds the clock reads currentTime + ms/1000: playback continues rather than restarts |
| `VideoPreview.PlayAtEndStopsAtOnce` | src/components/VideoEditor/VideoPreview.tsx:132-141 | starting at or past the end stops at the first tick |
| `VideoPreview.PreviewPlayer.constructor` | src/components/VideoEditor/VideoPreview.tsx:20-22 | time 0, not playing, no pending frame request, no URL, and the canvas holds the export frame at time 0 |
| `VideoPreview.PreviewPlayer.PlayPause` | src/components/VideoEditor/VideoPreview.tsx:130-163 | toggles playing; starting sets the reference and requests a frame, stopping cancels the request; the time and the canvas are kept |
| `VideoPreview.PreviewPlayer.Tick` | src/components/VideoEditor/VideoPreview.tsx:134-145 | elapsed >= duration: time is exactly duration and playback stops without a new request; otherwise time is the elapsed time (< duration) and another frame is requested; a new time repaints the canvas, an unchanged one keeps it |
| `VideoPreview.PreviewPlayer.Reset` | src/components/VideoEditor/VideoPreview.tsx:165-168 | time 0, not playing, no pending request; the canvas is repainted only when the time was not already 0 |
| `VideoPreview.PreviewPlayer.Unmount` | src/components/VideoEditor/VideoPreview.tsx:154-158 | the cleanup cancels the pending request |
| `VideoPreview.UrlAfterFileChange` | src/components/VideoEditor/VideoPreview.tsx:24-30 | a new background file gets a live URL; removing the file leaves a revoked URL when one was held, and none otherwise |
| `VideoPreview.ImageLoadOf` | src/components/VideoEditor/VideoPreview.tsx:43-49 | the image loads exactly when the URL is live and the browser decodes its file, whatever the file's type; no URL is the gradient branch |
| `VideoPreview.UndecodedBackgroundBlanksPreview` | src/components/VideoEditor/VideoPreview.tsx:24-49 | a background file the browser does not decode never loads as an image, so a repaint is blank, without text |
| `VideoPreview.RemovedBackgroundBlanksPreview` | src/components/VideoEditor/VideoPreview.tsx:24-49 | after a file is set and removed the URL is revoked and the preview is blank, without text |
| `VideoPreview.PreviewPlayer.BackgroundFileChanged` | src/components/VideoEditor/VideoPreview.tsx:24-59 | the URL state moves as `UrlAfterFileChange` says; a new file's URL repaints the canvas, a removal leaves the canvas as it was |
| `VideoPreview.PreviewPlayer.TextElementsChanged` | src/components/VideoEditor/VideoPreview.tsx:32-128 | a new text-element array repaints the canvas |
| `VideoPreview.PreviewPlayer.Resized` | src/components/VideoEditor/VideoPreview.tsx:179-184 | a new canvas size clears the canvas, text included, and nothing repaints it |
| `VideoPreview.PreviewPlayer.Drawn` | src/components/VideoEditor/VideoPreview.tsx:32-124 | a repaint without a URL paints the export frame; with a loaded image, the image and the export's text layers; with a URL that never loads, nothing |
| `VideoPreview.PadStart2` | src/components/VideoEditor/VideoPreview.tsx:173 | `padStart(2, '0')` keeps text of length >= 2 and otherwise left-pads to length 2 |
| `VideoPreview.FormatTimeFields` | src/components/VideoEditor/VideoPreview.tsx:170-174 | for t >= 0 the seconds field is in 0..59 and minutes * 60 + seconds = floor(t) |
| `VideoPreview.FormatTime` | src/components/VideoEditor/VideoPreview.tsx:170-174 | the "m:ss" text of t >= 0 reads back as floor(t) |
| `VideoPreview.ClockReadsBack` | src/components/VideoEditor/VideoPreview.tsx:173 | the clock text of m minutes and s < 60 seconds reads back as m * 60 + s |
| `VideoPreview.JsRemainderSign` | src/components/VideoEditor/VideoPreview.tsx:172 | JavaScript's `%` by a positive divisor takes the sign of the dividend and is smaller than the divisor in magnitude |
| `VideoPreview.ProgressBarWidth` | src/components/VideoEditor/VideoPreview.tsx:225 | no finite width for duration 0; in [0, 100] when 0 <= currentTime <= duration; 0 at the start and 100 at the end |
| `MediaUpload.BackgroundUpload` | src/components/VideoEditor/MediaUpload.tsx:21-47 | accepted iff a file is chosen, its type starts with image/ or video/ and it is at most 50 MiB; type is checked before size, and a file of the right type over the limit is too large; the patch sets only the background, kind image iff image/ |
| `MediaUpload.WithAudioFile` | src/components/VideoEditor/MediaUpload.tsx:65-70 | the spread keeps the previous track's url and volume and replaces the file |
| `MediaUpload.AudioUpload` | src/components/VideoEditor/MediaUpload.tsx:49-73 | accepted iff a file is chosen, its type starts with audio/ and it is at most 20 MiB; a file of the right type over the limit is too large; the patch sets only the audio track |
| `MediaUpload.RemoveAudio` | src/components/VideoEditor/MediaUpload.tsx:87-93 | the patch sets only the audio track: no file, the volume kept |
| `MediaUpload.RemoveBackground` | src/components/VideoEditor/MediaUpload.tsx:75-81 | the patch sets only the background, to an image without a file |
| `MediaUpload.ApplyUpload` | src/components/VideoEditor/MediaUpload.tsx:22-44 | a rejected upload changes nothing, and neither does an empty patch |
| `MediaUpload.RejectedUploadKeepsTemplate` | src/components/VideoEditor/MediaUpload.tsx:22-35 | no file or a rejected file leaves the template unchanged |
| `MediaUpload.AcceptedBackground` | src/components/VideoEditor/MediaUpload.tsx:37-44 | an accepted background replaces the background and nothing else |
| `MediaUpload.AcceptedAudioKeepsVolume` | src/components/VideoEditor/MediaUpload.tsx:65-70 | an accepted audio file replaces only the track's file |
| `MediaUpload.RemoveBackgroundResets` | src/components/VideoEditor/MediaUpload.tsx:75-81 | removal yields an image background without a file, and undoes an upload |
| `MediaUpload.RemoveAudioKeepsVolume` | src/components/VideoEditor/MediaUpload.tsx:87-93 | removal drops the file and keeps the volume, nothing else changes |
| `MediaUpload.RemoveAudioAfterUpload` | src/components/VideoEditor/MediaUpload.tsx:49-93 | uploading then removing audio equals removing straight away |
| `MediaUpload.SizeLimits` | src/components/VideoEditor/MediaUpload.tsx:26-35 | boundary examples of the upload contracts: exactly 50 MiB (background) and 20 MiB (audio) are accepted, one byte more is refused, a wrong type is refused for its type whatever its size |

## Left out

- Canvas drawing: `clearRect`, the gradient colours, the font string, the shadow's fixed colour, blur and offsets, `fillText`, `save`/`restore` and `drawImage` are not modelled; the layer records carry the values they would be given. The canvas ignores a `globalAlpha` outside [0, 1]; the layer records the raw opacity.
- The preview's asynchronous image load (src/components/VideoEditor/VideoPreview.tsx:43-49) is reduced to its outcome: whether the browser decodes the background file is a parameter of each repaint, and a repaint shows its image and text at once rather than when the load finishes. The revocation of the URL on unmount is not modelled.
- Platform media: `MediaRecorder`, `captureStream`, the recorded chunks and `Blob`, the download anchor, object URLs and the audio elements. Of these the model keeps only the setup errors named above (`VideoExporter.SetupThrows`); the export's audio element otherwise has no effect on the recording. A recorder that does not support the requested `video/webm;codecs=vp9` type also throws in the source; that browser-dependent failure is not modelled. The recorded frames stand for the captured stream.
- Scheduling and clocks: `setTimeout`, `requestAnimationFrame` and `Date.now` are replaced by a plain loop and by clock readings passed as parameters; the export runs to completion in one call, and the recorder's `onstop` runs right after the last frame.
- The preview effect's re-run when the template duration changes during playback: the duration is read at each tick.
- JavaScript number behaviour: arithmetic is on exact reals, with no IEEE rounding (for example of `k / fps` against the duration) and no NaN or Infinity; a zero duration in the progress bar is a `None` width.
- `VideoExporter.RenderExportFrames`: requires `fps > 0`. A negative frame rate never reaches the loop, since `captureStream` throws for it first (the `ExportFailed` outcome of `ExportVideo`). With a frame rate of zero the source draws one frame at time NaN and stops, which exact reals cannot express; the settings form (src/pages/Index.tsx:158) turns 0 into 30. `VideoExporter.ExportSession.ExportVideo` therefore excludes only `fps == 0`, and only when the setup does not throw.
- Canvas width and height are natural numbers; fractional or negative settings are not modelled.
- Toasts are not modelled; a rejected upload is an error value. The clearing of the file inputs' `value` after removal is UI state and is left out.
- `File` objects are only their MIME type and size.
- `animation.delay` is part of the data model but nothing reads it.
- The form and tab UI (src/pages/Index.tsx, src/components/VideoEditor/TextEditor.tsx) is not part of this model, nor is the `disabled` export button that keeps a second export from starting.
- `Math.round` in the progress display of the exporter is not modelled.
