/** The exporter: the export settings and bitrate, the download file name,
    and the frame-stepped loop that draws every frame of the timeline onto the
    recorded canvas while reporting progress. */
module VideoExporter {
  import opened Wrappers
  import opened VideoTemplateTypes
  import opened FrameEvaluator
  import Text
  import opened RealDivision
  import MediaUpload
  import TemplateHook

  // ---------------------------------------------------------------------------
  // Settings, bitrate and file name
  // ---------------------------------------------------------------------------

  /** The settings object the exporter builds: format mp4, quality high, the
      template's frame rate. (The recorder is nevertheless asked for WebM.) */
  function ExportSettingsFor(tpl: VideoTemplate): (s: VideoExportSettings)
    ensures s.format == Mp4 && s.quality == High && s.fps == tpl.settings.fps
  {
    VideoExportSettings(Mp4, High, tpl.settings.fps)
  }

  /** `videoBitsPerSecond` for a quality. */
  function Bitrate(q: Quality): (bps: nat)
    ensures q == High ==> bps == 5000000
    ensures q == Medium ==> bps == 2500000
    ensures q == Low ==> bps == 1000000
  {
    if q == High then 5000000 else if q == Medium then 2500000 else 1000000
  }

  /** Higher quality never means fewer bits, and every export is recorded at
      the high rate. */
  lemma ExportBitrate(tpl: VideoTemplate)
    ensures Bitrate(Low) < Bitrate(Medium) < Bitrate(High)
    ensures Bitrate(ExportSettingsFor(tpl).quality) == 5000000
  {
  }

  /** `${name.replace(/\s+/g, '_')}_${Date.now()}.webm`, with the clock
      reading passed in as `timestamp`. */
  function DownloadName(name: string, timestamp: nat): (r: string)
    ensures Text.NoSpace(r)
    ensures |r| > |Text.ReplaceSpaceRuns(name)| + 6
    ensures r[..|Text.ReplaceSpaceRuns(name)|] == Text.ReplaceSpaceRuns(name)
    ensures r[|Text.ReplaceSpaceRuns(name)|] == '_'
    ensures r[|r| - 5..] == ".webm"
  {
    var stem := Text.ReplaceSpaceRuns(name);
    var digits := Text.NatToDecimal(timestamp);
    var r := stem + "_" + digits + ".webm";
    Text.ReplaceSpaceRunsNoSpace(name);
    assert forall i :: 0 <= i < |digits| ==> !Text.IsSpace(digits[i]);
    assert Text.NoSpace(r) by {
      forall i | 0 <= i < |r| ensures !Text.IsSpace(r[i]) {
        if i < |stem| { assert r[i] == stem[i]; }
        else if i == |stem| { assert r[i] == '_'; }
        else if i < |stem| + 1 + |digits| { assert r[i] == digits[i - |stem| - 1]; }
        else { assert r[i] == ".webm"[i - |stem| - 1 - |digits|]; }
      }
    }
    r
  }

  /** The timestamp can be read back from the file name: the digits between
      the name's underscore and the extension are its decimal text. */
  lemma DownloadNameTimestamp(name: string, timestamp: nat)
    ensures var r := DownloadName(name, timestamp);
      var from := |Text.ReplaceSpaceRuns(name)| + 1;
      from <= |r| - 5 && Text.IsDigits(r[from..|r| - 5]) && Text.DecimalValue(r[from..|r| - 5]) == timestamp
  {
    var stem := Text.ReplaceSpaceRuns(name);
    var digits := Text.NatToDecimal(timestamp);
    var r := DownloadName(name, timestamp);
    assert r == stem + "_" + digits + ".webm";
    assert r[|stem| + 1..|r| - 5] == digits;
    Text.DecimalRoundTrip(timestamp);
  }

  // ---------------------------------------------------------------------------
  // Frame stepping
  // ---------------------------------------------------------------------------

  /** Frame `k` is drawn when its time `k / fps` lies before the end. */
  predicate FrameDue(k: nat, duration: real, fps: real)
    requires fps > 0.0
  {
    (k as real) / fps < duration
  }

  /** The time at which frame `k` is drawn. */
  function FrameTime(k: nat, fps: real): (t: real)
    requires fps > 0.0
    ensures t >= 0.0
    ensures t * fps == k as real
  {
    (k as real) / fps
  }

  /** The number of frames drawn: exactly the frames `k` with `k / fps <
      duration`, that is `duration * fps` rounded up (none for a duration
      that is not positive). */
  function FrameCount(duration: real, fps: real): (n: nat)
    requires fps > 0.0
    ensures forall k: nat :: k < n <==> FrameDue(k, duration, fps)
  {
    var x := duration * fps;
    var n: nat := if x <= 0.0 then 0 else if x.Floor as real == x then x.Floor else x.Floor + 1;
    forall k: nat ensures k < n <==> FrameDue(k, duration, fps) {
      DivLessIff(k as real, fps, duration);
    }
    n
  }

  /** `(currentFrame / totalFrames) * 100` after frame `k` has been drawn,
      with `totalFrames = duration * fps`. */
  function ProgressAfter(k: nat, duration: real, fps: real): (p: real)
    requires duration > 0.0 && fps > 0.0
    ensures p > 0.0
    ensures p * (duration * fps) == (k + 1) as real * 100.0
  {
    ((k + 1) as real / (duration * fps)) * 100.0
  }

  /** `animateFrame` run to completion: it draws frame `k` at `k / fps` for
      `k = 0, 1, ...` while that time lies before the end, and after each
      draw reports the progress. Returns the frames drawn and the values
      reported, in order. */
  method RenderExportFrames(tpl: VideoTemplate) returns (frames: seq<Frame>, progress: seq<real>)
    requires tpl.settings.fps > 0.0
    ensures |frames| == |progress| == FrameCount(tpl.duration, tpl.settings.fps)
    ensures |frames| > 0 ==> tpl.duration > 0.0
    ensures forall k :: 0 <= k < |frames| ==> frames[k] == ExportFrame(tpl, FrameTime(k, tpl.settings.fps))
    ensures forall k :: 0 <= k < |progress| ==> progress[k] == ProgressAfter(k, tpl.duration, tpl.settings.fps)
  {
    var fps := tpl.settings.fps;
    ghost var n := FrameCount(tpl.duration, fps);
    var currentFrame: nat := 0;
    frames, progress := [], [];
    while FrameDue(currentFrame, tpl.duration, fps)
      invariant currentFrame <= n
      invariant currentFrame > 0 ==> tpl.duration > 0.0
      invariant |frames| == |progress| == currentFrame
      invariant forall k :: 0 <= k < currentFrame ==> frames[k] == ExportFrame(tpl, FrameTime(k, fps))
      invariant forall k :: 0 <= k < currentFrame ==> progress[k] == ProgressAfter(k, tpl.duration, fps)
      decreases n - currentFrame
    {
      DivNonNegative(currentFrame as real, fps);
      frames := frames + [ExportFrame(tpl, FrameTime(currentFrame, fps))];
      progress := progress + [ProgressAfter(currentFrame, tpl.duration, fps)];
      currentFrame := currentFrame + 1;
    }
  }

  /** The reported progress strictly increases from frame to frame. */
  lemma ProgressIncreasing(j: nat, k: nat, duration: real, fps: real)
    requires duration > 0.0 && fps > 0.0
    requires j < k
    ensures ProgressAfter(j, duration, fps) < ProgressAfter(k, duration, fps)
  {
    var total := duration * fps;
    assert total > 0.0;
    assert (k + 1) as real / total - (j + 1) as real / total == (k - j) as real / total;
  }

  /** When `duration * fps` is a whole number the export draws exactly that
      many frames and the last reported progress is exactly 100. */
  lemma ProgressEndsAtHundred(duration: real, fps: real)
    requires duration > 0.0 && fps > 0.0
    requires (duration * fps).Floor as real == duration * fps
    ensures FrameCount(duration, fps) == (duration * fps).Floor
    ensures FrameCount(duration, fps) >= 1
    ensures ProgressAfter(FrameCount(duration, fps) - 1, duration, fps) == 100.0
  {
    var total := duration * fps;
    var n := FrameCount(duration, fps);
    assert total > 0.0;
    assert FrameDue(0, duration, fps);
    assert !FrameDue(total.Floor, duration, fps) by {
      DivLessIff(total.Floor as real, fps, duration);
    }
    if total.Floor > 0 {
      assert FrameDue(total.Floor - 1, duration, fps) by {
        DivLessIff((total.Floor - 1) as real, fps, duration);
      }
    }
    assert n == total.Floor;
    assert n as real / total == 1.0;
  }

  /** Ten seconds at 30 frames per second: 300 frames, drawn at
      0, 1/30, ..., 299/30, the last one reporting 100. */
  lemma TenSecondsAtThirtyFps()
    ensures FrameCount(10.0, 30.0) == 300
    ensures FrameTime(299, 30.0) == 299.0 / 30.0
    ensures ProgressAfter(299, 10.0, 30.0) == 100.0
  {
    ProgressEndsAtHundred(10.0, 30.0);
  }

  // ---------------------------------------------------------------------------
  // The export session
  // ---------------------------------------------------------------------------

  datatype ExportOutcome =
    | CanvasNotReady          // no canvas: nothing happens
    | ExportFailed            // an error thrown while setting up is caught
    | Exported(fileName: string)

  /** `audio.volume = template.audioTrack.volume`, run when the track has a
      file, throws: the property accepts only a finite number from 0 to 1,
      and an absent volume arrives as `undefined`. */
  predicate AudioVolumeRejected(tpl: VideoTemplate) {
    && tpl.audioTrack.Some? && tpl.audioTrack.value.file.Some?
    && (tpl.audioTrack.value.volume.None? || !(0.0 <= tpl.audioTrack.value.volume.value <= 1.0))
  }

  /** Uploading audio into a template that has no audio track gives a
      track with a file and no volume, which the export refuses until the
      volume slider sets a volume (`VolumeSliderRepairsTrack`). No handler
      removes the track, so a template that starts from `InitialTemplate`
      never reaches this state (`InitialAudioUploadExports`). */
  lemma FirstAudioUploadFailsExport(t: VideoTemplate, f: MediaFile)
    requires t.audioTrack.None?
    requires MediaUpload.AudioUpload(t.audioTrack, Some(f)).Ok?
    ensures AudioVolumeRejected(MediaUpload.ApplyUpload(t, MediaUpload.AudioUpload(t.audioTrack, Some(f))))
  {
  }

  /** The volume slider, shown once the track has a file, writes a volume
      from 0 to 1 into a copy of the track; the export then accepts it. */
  lemma VolumeSliderRepairsTrack(t: VideoTemplate, v: real)
    requires t.audioTrack.Some? && t.audioTrack.value.file.Some?
    requires 0.0 <= v <= 1.0
    ensures !AudioVolumeRejected(TemplateHook.UpdateTemplate(t,
      TemplateHook.EmptyPatch.(audioTrack := Some(Some(t.audioTrack.value.(volume := Some(v)))))))
  {
  }

  /** An accepted audio upload into the starting template keeps its volume
      of 0.7, so the export accepts the track. */
  lemma InitialAudioUploadExports(f: MediaFile)
    requires MediaUpload.AudioUpload(TemplateHook.InitialTemplate().audioTrack, Some(f)).Ok?
    ensures !AudioVolumeRejected(MediaUpload.ApplyUpload(TemplateHook.InitialTemplate(),
      MediaUpload.AudioUpload(TemplateHook.InitialTemplate().audioTrack, Some(f))))
  {
  }

  /** The setup of `exportVideo` throws before the first frame: no 2D
      context, a negative frame rate handed to `captureStream`, or an audio
      volume the audio element refuses. */
  predicate SetupThrows(tpl: VideoTemplate, contextReady: bool) {
    !contextReady || tpl.settings.fps < 0.0 || AudioVolumeRejected(tpl)
  }

  /** The exporter component's state: the `isExporting` and `exportProgress`
      state, the frames the recorded canvas received during the last export
      (standing for the recorder's chunks), and every progress value set
      during it. */
  class ExportSession {
    var isExporting: bool
    var exportProgress: real
    var recorded: seq<Frame>
    var progressReports: seq<real>

    constructor ()
      ensures !isExporting && exportProgress == 0.0
      ensures recorded == [] && progressReports == []
    {
      isExporting, exportProgress := false, 0.0;
      recorded, progressReports := [], [];
    }

    /** `exportVideo()`. `canvasReady` and `contextReady` say whether the
        canvas ref is set and whether it yields a 2D context; a setup step
        that throws (`SetupThrows`) ends in the catch; `now` is the
        clock reading when the recorder stops. The asynchronous steps (each
        frame scheduled by a timer, the recorder's `onstop`) are run to
        completion. */
    method ExportVideo(tpl: VideoTemplate, canvasReady: bool, contextReady: bool, now: nat)
      returns (outcome: ExportOutcome)
      requires canvasReady && !SetupThrows(tpl, contextReady) ==> tpl.settings.fps > 0.0
      modifies this
      ensures !canvasReady ==>
        && outcome == CanvasNotReady
        && isExporting == old(isExporting) && exportProgress == old(exportProgress)
        && recorded == old(recorded) && progressReports == old(progressReports)
      ensures canvasReady && SetupThrows(tpl, contextReady) ==>
        && outcome == ExportFailed
        && !isExporting && exportProgress == 0.0
        && recorded == [] && progressReports == [0.0, 0.0]
      ensures canvasReady && !SetupThrows(tpl, contextReady) ==>
        && outcome == Exported(DownloadName(tpl.name, now))
        && !isExporting && exportProgress == 0.0
        && |recorded| == FrameCount(tpl.duration, tpl.settings.fps)
        && (forall k :: 0 <= k < |recorded| ==> recorded[k] == ExportFrame(tpl, FrameTime(k, tpl.settings.fps)))
        && |progressReports| == |recorded| + 2
        && progressReports[0] == 0.0 && progressReports[|progressReports| - 1] == 0.0
        && (|recorded| > 0 ==> tpl.duration > 0.0)
        && (forall k :: 0 <= k < |recorded| ==> progressReports[k + 1] == ProgressAfter(k, tpl.duration, tpl.settings.fps))
    {
      if !canvasReady {
        return CanvasNotReady;
      }
      isExporting := true;
      exportProgress := 0.0;
      progressReports := [0.0];
      recorded := [];
      if SetupThrows(tpl, contextReady) {
        // the thrown error is caught: both pieces of state are reset
        isExporting := false;
        exportProgress := 0.0;
        progressReports := progressReports + [0.0];
        return ExportFailed;
      }
      var frames, progress := RenderExportFrames(tpl);
      recorded := frames;
      progressReports := progressReports + progress;
      // the recorder's onstop: download, then reset
      var fileName := DownloadName(tpl.name, now);
      isExporting := false;
      exportProgress := 0.0;
      progressReports := progressReports + [0.0];
      outcome := Exported(fileName);
    }
  }
}
