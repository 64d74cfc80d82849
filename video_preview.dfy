/** The live preview: a playback clock driven by animation-frame callbacks,
    the "m:ss" time display and the progress bar. */
module VideoPreview {
  import opened Wrappers
  import opened VideoTemplateTypes
  import opened FrameEvaluator
  import Text
  import opened RealDivision

  // ---------------------------------------------------------------------------
  // Playback clock
  // ---------------------------------------------------------------------------

  /** `(Date.now() - startTime) / 1000`: seconds elapsed since the reference
      instant, with clock readings in milliseconds. */
  function Elapsed(now: real, reference: real): (seconds: real)
    ensures seconds * 1000.0 == now - reference
    ensures now >= reference ==> seconds >= 0.0
  {
    (now - reference) / 1000.0
  }

  /** `Date.now() - currentTime * 1000`: the reference instant chosen when
      playback starts, so that the clock reads `currentTime` at that moment. */
  function PlayReference(now: real, currentTime: real): (reference: real)
    ensures Elapsed(now, reference) == currentTime
  {
    now - currentTime * 1000.0
  }

  /** Resuming continues from the current time: `ms` milliseconds after
      starting playback at `currentTime`, the clock reads
      `currentTime + ms / 1000`. */
  lemma ResumeContinues(now: real, currentTime: real, ms: real)
    ensures Elapsed(now + ms, PlayReference(now, currentTime)) == currentTime + ms / 1000.0
  {
  }

  /** Pressing play at the end (`currentTime >= duration`) stops again at the
      very first tick, since the clock never reads less than `currentTime`. */
  lemma PlayAtEndStopsAtOnce(now: real, later: real, currentTime: real, duration: real)
    requires currentTime >= duration
    requires later >= now
    ensures Elapsed(later, PlayReference(now, currentTime)) >= duration
  {
    ResumeContinues(now, currentTime, later - now);
    assert now + (later - now) == later;
  }

  /** The preview's `backgroundImageUrl` state: no URL yet, an object URL
      made for a background file, or a URL that the effect's cleanup has
      revoked. The state is never cleared, so after the file is removed the
      revoked URL stays. */
  datatype ObjectUrl = NoUrl | LiveUrl(file: MediaFile) | RevokedUrl

  /** The object-URL effect when `backgroundMedia.file` changes: a new file
      gets a fresh URL (the old one is revoked); no file keeps the state,
      whose URL the cleanup has revoked. */
  function UrlAfterFileChange(url: ObjectUrl, file: Option<MediaFile>): (u: ObjectUrl)
    ensures file.Some? ==> u == LiveUrl(file.value)
    ensures file.None? ==> (u == NoUrl <==> url == NoUrl)
    ensures file.None? && url != NoUrl ==> u == RevokedUrl
  {
    match file
    case Some(f) => LiveUrl(f)
    case None => if url == NoUrl then NoUrl else RevokedUrl
  }

  /** How `new Image()` fares with the URL held: none is held, or it loads
      only when it is live and the browser decodes the file behind it
      (`decodes`; which formats an image element decodes is the browser's
      choice, so this holds for a video file too); a revoked URL never
      loads. */
  function ImageLoadOf(url: ObjectUrl, decodes: bool): (load: ImageLoad)
    ensures load == NoImageUrl <==> url == NoUrl
    ensures load == ImageLoaded <==> url.LiveUrl? && decodes
  {
    match url
    case NoUrl => NoImageUrl
    case RevokedUrl => ImageNeverLoads
    case LiveUrl(f) => if decodes then ImageLoaded else ImageNeverLoads
  }

  /** A background file the browser cannot decode as an image (a video, in
      a browser whose image element does not play video) never shows in the
      preview, nor does any text while it is the background. */
  lemma UndecodedBackgroundBlanksPreview(tpl: VideoTemplate, t: real, f: MediaFile)
    ensures ImageLoadOf(LiveUrl(f), false) == ImageNeverLoads
    ensures PreviewFrame(tpl, t, ImageLoadOf(LiveUrl(f), false)) == Frame(Blank, [])
  {
  }

  /** After a background file has been set and then removed, the preview
      holds a revoked URL and draws nothing, text included. */
  lemma RemovedBackgroundBlanksPreview(tpl: VideoTemplate, t: real, url: ObjectUrl, f: MediaFile, decodes: bool)
    ensures UrlAfterFileChange(UrlAfterFileChange(url, Some(f)), None) == RevokedUrl
    ensures PreviewFrame(tpl, t, ImageLoadOf(RevokedUrl, decodes)) == Frame(Blank, [])
  {
  }

  /** The preview component's playback state. `isPlaying` is the prop the
      parent owns (toggled through `onPlayStateChange`); `reference` is the
      `startTime` the playback effect computed; `frameRequested` says whether
      an animation-frame callback is pending; `canvas` is what the preview
      canvas holds.

      The canvas is repainted only when `drawFrame` changes, that is when
      `backgroundImageUrl`, `currentTime` or `template.textElements` takes a
      new value; a change of the canvas size clears it without a repaint.
      The template is the component's prop and is passed to the methods
      that repaint; `decodes` says whether the browser decodes the current
      background file as an image. */
  class PreviewPlayer {
    var currentTime: real
    var isPlaying: bool
    var reference: real
    var frameRequested: bool
    var backgroundImageUrl: ObjectUrl
    var canvas: Frame

    /** A callback is pending only while playing. */
    ghost predicate Valid()
      reads this
    {
      frameRequested ==> isPlaying
    }

    /** Mounting: time 0, paused, no URL, and the first `drawFrame` paints
        the gradient and the text of time 0. */
    constructor (tpl: VideoTemplate)
      ensures Valid()
      ensures currentTime == 0.0 && !isPlaying && !frameRequested
      ensures backgroundImageUrl == NoUrl
      ensures canvas == ExportFrame(tpl, 0.0)
    {
      currentTime, isPlaying := 0.0, false;
      reference, frameRequested := 0.0, false;
      backgroundImageUrl := NoUrl;
      canvas := PreviewFrame(tpl, 0.0, NoImageUrl);
    }

    /** What `drawFrame()` paints in this state. */
    function Drawn(tpl: VideoTemplate, decodes: bool): (f: Frame)
      reads this
      ensures backgroundImageUrl == NoUrl ==> f == ExportFrame(tpl, currentTime)
      ensures ImageLoadOf(backgroundImageUrl, decodes) == ImageLoaded ==>
        f.background == MediaImage && f.texts == ExportFrame(tpl, currentTime).texts
      ensures ImageLoadOf(backgroundImageUrl, decodes) == ImageNeverLoads ==> f == Frame(Blank, [])
    {
      PreviewFrame(tpl, currentTime, ImageLoadOf(backgroundImageUrl, decodes))
    }

    /** The object-URL effect, run when the background file changes. A new
        file gives a new URL string and so a repaint; without a file the
        state keeps its string, now revoked, and nothing is repainted. */
    method BackgroundFileChanged(file: Option<MediaFile>, tpl: VideoTemplate, decodes: bool)
      requires Valid()
      modifies this`backgroundImageUrl, this`canvas
      ensures Valid()
      ensures backgroundImageUrl == UrlAfterFileChange(old(backgroundImageUrl), file)
      ensures file.Some? ==> canvas == Drawn(tpl, decodes)
      ensures file.None? ==> canvas == old(canvas)
    {
      match file {
        case Some(f) =>
          backgroundImageUrl := LiveUrl(f);
          canvas := Drawn(tpl, decodes);
        case None =>
          if backgroundImageUrl != NoUrl {
            backgroundImageUrl := RevokedUrl;
          }
      }
    }

    /** A new `template.textElements` array: `drawFrame` changes and the
        canvas is repainted. */
    method TextElementsChanged(tpl: VideoTemplate, decodes: bool)
      requires Valid()
      modifies this`canvas
      ensures Valid()
      ensures canvas == Drawn(tpl, decodes)
    {
      canvas := Drawn(tpl, decodes);
    }

    /** A new width or height from the settings: the canvas element's size
        attribute is set again, which clears its bitmap, and since
        `drawFrame` does not depend on the settings nothing repaints it. */
    method Resized()
      requires Valid()
      modifies this`canvas
      ensures Valid()
      ensures canvas == Frame(Blank, [])
    {
      canvas := Frame(Blank, []);
    }

    /** `handlePlayPause` at clock reading `now`, with the playback effect it
        triggers: starting computes the reference instant and requests a
        frame; stopping cancels the pending request. The time does not
        change, so the canvas is not repainted. */
    method PlayPause(now: real)
      requires Valid()
      modifies this
      ensures Valid()
      ensures isPlaying == !old(isPlaying)
      ensures currentTime == old(currentTime) && backgroundImageUrl == old(backgroundImageUrl)
      ensures canvas == old(canvas)
      ensures isPlaying ==> frameRequested && reference == PlayReference(now, currentTime)
      ensures !isPlaying ==> !frameRequested && reference == old(reference)
    {
      isPlaying := !isPlaying;
      if isPlaying {
        reference := PlayReference(now, currentTime);
        frameRequested := true;
      } else {
        frameRequested := false;
      }
    }

    /** The `animate` callback firing at clock reading `now`: at or past the
        template's end the time is clamped to its duration and playback
        stops without a new request; otherwise the time becomes the elapsed
        time and another frame is requested. A new time repaints the
        canvas. */
    method Tick(now: real, tpl: VideoTemplate, decodes: bool)
      requires Valid() && frameRequested
      modifies this
      ensures Valid()
      ensures reference == old(reference) && backgroundImageUrl == old(backgroundImageUrl)
      ensures Elapsed(now, reference) >= tpl.duration ==>
        currentTime == tpl.duration && !isPlaying && !frameRequested
      ensures Elapsed(now, reference) < tpl.duration ==>
        currentTime == Elapsed(now, reference) && currentTime < tpl.duration && isPlaying && frameRequested
      ensures currentTime != old(currentTime) ==> canvas == Drawn(tpl, decodes)
      ensures currentTime == old(currentTime) ==> canvas == old(canvas)
    {
      var elapsed := Elapsed(now, reference);
      var previous := currentTime;
      if elapsed >= tpl.duration {
        currentTime := tpl.duration;
        isPlaying := false;
        frameRequested := false;
      } else {
        currentTime := elapsed;
        frameRequested := true;
      }
      if currentTime != previous {
        canvas := Drawn(tpl, decodes);
      }
    }

    /** `handleReset`: back to 0 and stopped; the effect's cleanup cancels
        any pending request. A new time repaints the canvas. */
    method Reset(tpl: VideoTemplate, decodes: bool)
      requires Valid()
      modifies this
      ensures Valid()
      ensures currentTime == 0.0 && !isPlaying && !frameRequested
      ensures reference == old(reference) && backgroundImageUrl == old(backgroundImageUrl)
      ensures old(currentTime) != 0.0 ==> canvas == Drawn(tpl, decodes)
      ensures old(currentTime) == 0.0 ==> canvas == old(canvas)
    {
      var previous := currentTime;
      currentTime := 0.0;
      isPlaying := false;
      frameRequested := false;
      if previous != 0.0 {
        canvas := Drawn(tpl, decodes);
      }
    }

    /** The effect cleanup on unmount: the pending request is cancelled and
        nothing else changes. */
    method Unmount()
      requires Valid()
      modifies this`frameRequested
      ensures Valid() && !frameRequested
    {
      frameRequested := false;
    }
  }

  // ---------------------------------------------------------------------------
  // Time display and progress bar
  // ---------------------------------------------------------------------------

  /** `Math.trunc`, toward zero. */
  function Trunc(x: real): int {
    if x >= 0.0 then x.Floor else -((-x).Floor)
  }

  /** JavaScript's `x % m`: the remainder of the division truncated toward
      zero, so it takes the sign of `x`. */
  function JsRemainder(x: real, m: real): real
    requires m != 0.0
  {
    x - m * Trunc(x / m) as real
  }

  /** The remainder takes the sign of the dividend and is smaller than the
      divisor in magnitude. */
  lemma JsRemainderSign(x: real, m: real)
    requires m > 0.0
    ensures x >= 0.0 ==> 0.0 <= JsRemainder(x, m) < m
    ensures x <= 0.0 ==> -m < JsRemainder(x, m) <= 0.0
  {
    if x >= 0.0 {
      RemainderOfNonNegative(x, m);
    } else {
      RemainderOfNonNegative(-x, m);
      RemainderOfNegation(x, m);
    }
  }

  lemma RemainderOfNonNegative(x: real, m: real)
    requires m > 0.0 && x >= 0.0
    ensures 0.0 <= JsRemainder(x, m) < m
  {
    var q := x / m;
    QuotientOfNonNegative(x, m, q);
    var nr := q.Floor as real;
    assert JsRemainder(x, m) == x - m * nr;
    var f := q - nr;
    FractionOf(f, m);
    assert f * m == x - m * nr;
  }

  lemma QuotientOfNonNegative(x: real, m: real, q: real)
    requires m > 0.0 && x >= 0.0 && q == x / m
    ensures q * m == x && q >= 0.0
  {
    assert q * m == x;
  }

  lemma FractionOf(f: real, m: real)
    requires 0.0 <= f < 1.0 && m > 0.0
    ensures 0.0 <= f * m < m
  {
    assert m - f * m == (1.0 - f) * m;
  }

  lemma RemainderOfNegation(x: real, m: real)
    requires m > 0.0 && x < 0.0
    ensures JsRemainder(x, m) == -JsRemainder(-x, m)
  {
    assert (-x) / m == -(x / m);
    assert Trunc(x / m) == -Trunc((-x) / m);
  }

  /** `s.padStart(2, '0')`. */
  function PadStart2(s: string): (r: string)
    ensures |s| >= 2 ==> r == s
    ensures |s| < 2 ==> |r| == 2 && r[2 - |s|..] == s
  {
    if |s| >= 2 then s else seq(2 - |s|, _ => '0') + s
  }

  /** `formatTime(time)`: whole minutes, a colon, and the whole seconds of
      `time % 60` padded to two characters. */
  function FormatTime(time: real): (r: string)
    ensures time >= 0.0 ==> ParseClock(r) == Some(time.Floor)
  {
    var minutes := (time / 60.0).Floor;
    var seconds := JsRemainder(time, 60.0).Floor;
    if time >= 0.0 then
      FormatTimeReadsBack(time);
      ClockText(minutes, seconds)
    else
      ClockText(minutes, seconds)
  }

  /** `${minutes}:${seconds.toString().padStart(2, '0')}`. */
  function ClockText(minutes: int, seconds: int): string {
    Text.IntToDecimal(minutes) + ":" + PadStart2(Text.IntToDecimal(seconds))
  }

  /** For a time that is not negative the seconds field is a whole number of
      seconds below 60, and minutes and seconds together make up the whole
      seconds of `time`. */
  lemma FormatTimeFields(time: real, m: int, s: int)
    requires time >= 0.0
    requires m == (time / 60.0).Floor && s == JsRemainder(time, 60.0).Floor
    ensures m >= 0 && 0 <= s < 60
    ensures m * 60 + s == time.Floor
  {
    assert m as real <= time / 60.0 < m as real + 1.0;
    assert Trunc(time / 60.0) == m;
    var r := JsRemainder(time, 60.0);
    assert r == time - 60.0 * m as real;
    assert 0.0 <= r < 60.0;
    assert s as real <= r < s as real + 1.0;
    assert (s + 60 * m) as real <= time < (s + 60 * m) as real + 1.0;
  }

  /** The fields `formatTime` computes for a time that is not negative read
      back as its whole seconds. */
  lemma FormatTimeReadsBack(time: real)
    requires time >= 0.0
    ensures ParseClock(ClockText((time / 60.0).Floor, JsRemainder(time, 60.0).Floor)) == Some(time.Floor)
  {
    var m := (time / 60.0).Floor;
    var s := JsRemainder(time, 60.0).Floor;
    FormatTimeFields(time, m, s);
    ClockReadsBack(m, s);
  }

  lemma {:induction false} PadTwoDigits(s: nat)
    requires s < 100
    ensures var p := PadStart2(Text.IntToDecimal(s));
      |p| == 2 && Text.IsDigits(p) && Text.DecimalValue(p) == s
  {
    var d := Text.NatToDecimal(s);
    var p := PadStart2(d);
    assert Text.IntToDecimal(s) == d;
    if s < 10 {
      assert d == [Text.DigitChar(s)];
      assert p == ['0', Text.DigitChar(s)];
      assert p[..1] == ['0'];
      assert p[..1][..0] == [];
      assert Text.DecimalValue(p[..1]) == 0;
    } else {
      assert Text.NatToDecimal(s / 10) == [Text.DigitChar(s / 10)];
      assert d == [Text.DigitChar(s / 10), Text.DigitChar(s % 10)];
      assert p == d;
      assert p[..1] == [Text.DigitChar(s / 10)];
      assert p[..1][..0] == [];
      assert Text.DecimalValue(p[..1]) == s / 10;
    }
  }

  /** Reads an "m:ss" display back as whole seconds; `None` for text of
      another shape. */
  function ParseClock(s: string): Option<int> {
    if |s| < 4 || s[|s| - 3] != ':' then None
    else
      var minutes := s[..|s| - 3];
      var seconds := s[|s| - 2..];
      if Text.IsDigits(minutes) && Text.IsDigits(seconds)
      then Some(Text.DecimalValue(minutes) * 60 + Text.DecimalValue(seconds))
      else None
  }

  /** The clock text of whole minutes and seconds below 60 reads back as
      the whole seconds it stands for. */
  lemma ClockReadsBack(minutes: nat, seconds: nat)
    requires seconds < 60
    ensures ParseClock(ClockText(minutes, seconds)) == Some(minutes * 60 + seconds)
  {
    var md := Text.NatToDecimal(minutes);
    var sd := PadStart2(Text.IntToDecimal(seconds));
    PadTwoDigits(seconds);
    Text.DecimalRoundTrip(minutes);
    assert ClockText(minutes, seconds) == md + ":" + sd;
    ParseClockFields(md, sd);
  }

  /** Digits, a colon and two digits read back as minutes and seconds. */
  lemma ParseClockFields(md: string, sd: string)
    requires |md| >= 1 && Text.IsDigits(md) && |sd| == 2 && Text.IsDigits(sd)
    ensures ParseClock(md + ":" + sd) == Some(Text.DecimalValue(md) * 60 + Text.DecimalValue(sd))
  {
    ClockSplit(md, sd);
    ParseClockOf(md + ":" + sd);
  }

  /** Where the colon, the minutes and the seconds sit in "m:ss". */
  lemma ClockSplit(md: string, sd: string)
    requires |sd| == 2
    ensures var f := md + ":" + sd;
      && |f| == |md| + 3 && f[|f| - 3] == ':' && f[..|f| - 3] == md && f[|f| - 2..] == sd
  {
    var f := md + ":" + sd;
    assert f[..|f| - 3] == md;
    assert f[|f| - 2..] == sd;
  }

  /** `ParseClock` on text of the right shape. */
  lemma ParseClockOf(f: string)
    requires |f| >= 4 && f[|f| - 3] == ':'
    requires Text.IsDigits(f[..|f| - 3]) && Text.IsDigits(f[|f| - 2..])
    ensures ParseClock(f) == Some(Text.DecimalValue(f[..|f| - 3]) * 60 + Text.DecimalValue(f[|f| - 2..]))
  {
  }

  /** The width of the progress bar, `currentTime / duration * 100` percent;
      `None` when the duration is zero and the division yields no finite
      number. */
  function ProgressBarWidth(currentTime: real, duration: real): (w: Option<real>)
    ensures w.None? <==> duration == 0.0
    ensures duration > 0.0 && 0.0 <= currentTime <= duration ==> 0.0 <= w.value <= 100.0
    ensures duration != 0.0 && currentTime == duration ==> w == Some(100.0)
    ensures duration != 0.0 && currentTime == 0.0 ==> w == Some(0.0)
  {
    if duration == 0.0 then None
    else
      var w := currentTime / duration * 100.0;
      assert currentTime == duration ==> currentTime / duration == 1.0;
      assert duration > 0.0 && 0.0 <= currentTime <= duration ==> 0.0 <= currentTime / duration <= 1.0 by {
        if duration > 0.0 && 0.0 <= currentTime <= duration {
          DivAtMostOne(currentTime, duration);
        }
      }
      Some(w)
  }
}
