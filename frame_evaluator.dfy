/** What a frame shows at time `t`: the per-element arithmetic that both the
    exporter (`drawFrameAtTime`) and the preview (`drawTextElements`) carry
    out before calling the canvas. Instead of canvas calls the model returns
    layer records holding the values those calls would receive. */
module FrameEvaluator {
  import opened Wrappers
  import opened VideoTemplateTypes
  import TemplateHook
  import opened RealDivision

  // ---------------------------------------------------------------------------
  // Visibility and animation progress
  // ---------------------------------------------------------------------------

  /** An element is drawn while `startTime <= t <= endTime`, both ends
      included; an element whose end precedes its start is never drawn, and
      one with a single instant is drawn at exactly that instant. */
  predicate Visible(e: TextElement, t: real)
    ensures Visible(e, t) ==> e.timing.startTime <= e.timing.endTime
    ensures e.timing.startTime == e.timing.endTime ==> (Visible(e, t) <==> t == e.timing.startTime)
  {
    e.timing.startTime <= t <= e.timing.endTime
  }

  /** `element.animation?.duration || 1`: an absent animation and a zero
      duration both count as one second; any other duration, negative ones
      included, is used as it is. */
  function RampDuration(a: Option<Animation>): (d: real)
    ensures d != 0.0
    ensures a.None? ==> d == 1.0
    ensures a.Some? ==> d == (if a.value.duration == 0.0 then 1.0 else a.value.duration)
  {
    if a.Some? && a.value.duration != 0.0 then a.value.duration else 1.0
  }

  /** `Math.min(x, 1)`. */
  function Min1(x: real): (m: real)
    ensures m <= 1.0 && m <= x
    ensures m == x || m == 1.0
  {
    if x < 1.0 then x else 1.0
  }

  /** `Math.min((t - startTime) / (animation?.duration || 1), 1)`. */
  function Progress(e: TextElement, t: real): (p: real)
    ensures p <= 1.0
    ensures p <= (t - e.timing.startTime) / RampDuration(e.animation)
    ensures RampDuration(e.animation) > 0.0 && e.timing.startTime <= t ==> 0.0 <= p
    ensures RampDuration(e.animation) > 0.0 && t >= e.timing.startTime + RampDuration(e.animation) ==> p == 1.0
    ensures t == e.timing.startTime ==> p == 0.0
  {
    var d := RampDuration(e.animation);
    var q := (t - e.timing.startTime) / d;
    DivAtLeastOne(t - e.timing.startTime, d);
    DivNonNegative(t - e.timing.startTime, d);
    var p := Min1(q);
    p
  }

  /** While the ramp runs (`startTime <= t < startTime + duration`, duration
      positive) the progress is the elapsed fraction of the ramp. */
  lemma ProgressDuringRamp(e: TextElement, t: real)
    requires RampDuration(e.animation) > 0.0
    requires e.timing.startTime <= t < e.timing.startTime + RampDuration(e.animation)
    ensures Progress(e, t) == (t - e.timing.startTime) / RampDuration(e.animation)
    ensures 0.0 <= Progress(e, t) < 1.0
  {
    DivBelowOne(t - e.timing.startTime, RampDuration(e.animation));
  }

  // ---------------------------------------------------------------------------
  // Animation effect
  // ---------------------------------------------------------------------------

  datatype Effect = Effect(opacity: real, scale: real, translateY: real)

  const Identity := Effect(1.0, 1.0, 0.0)

  /** The `switch` on the animation kind. 'none' has no case of its own and,
      like a missing animation, keeps opacity 1, scale 1 and no offset. */
  function AnimationEffect(a: Option<Animation>, p: real): (f: Effect)
    ensures a.None? || a.value.kind == NoAnimation ==> f == Identity
    ensures a.Some? && a.value.kind == FadeIn ==> f == Effect(p, 1.0, 0.0)
    ensures a.Some? && a.value.kind == ScaleIn ==> f == Effect(p, 0.5 + p * 0.5, 0.0)
    ensures a.Some? && a.value.kind == SlideIn ==> f == Effect(p, 1.0, (1.0 - p) * 50.0)
  {
    match a
    case None => Identity
    case Some(anim) =>
      match anim.kind
      case FadeIn => Effect(p, 1.0, 0.0)
      case ScaleIn => Effect(p, 0.5 + p * 0.5, 0.0)
      case SlideIn => Effect(p, 1.0, (1.0 - p) * 50.0)
      case NoAnimation => Identity
  }

  /** At full progress every kind has settled: fully opaque, full size, no
      offset. */
  lemma EffectSettles(a: Option<Animation>)
    ensures AnimationEffect(a, 1.0) == Identity
  {
  }

  /** At zero progress every animated kind is fully transparent. */
  lemma EffectStartsTransparent(a: Option<Animation>)
    requires a.Some? && a.value.kind != NoAnimation
    ensures AnimationEffect(a, 0.0).opacity == 0.0
  {
  }

  /** For a progress in [0, 1]: opacity in [0, 1], scale in [0.5, 1] and the
      offset in [0, 50]. */
  lemma EffectBounds(a: Option<Animation>, p: real)
    requires 0.0 <= p <= 1.0
    ensures 0.0 <= AnimationEffect(a, p).opacity <= 1.0
    ensures 0.5 <= AnimationEffect(a, p).scale <= 1.0
    ensures 0.0 <= AnimationEffect(a, p).translateY <= 50.0
  {
  }

  /** As the progress grows, opacity and scale never shrink and the offset
      never grows. */
  lemma EffectMonotone(a: Option<Animation>, p: real, q: real)
    requires p <= q
    ensures AnimationEffect(a, p).opacity <= AnimationEffect(a, q).opacity
    ensures AnimationEffect(a, p).scale <= AnimationEffect(a, q).scale
    ensures AnimationEffect(a, p).translateY >= AnimationEffect(a, q).translateY
  {
  }

  // ---------------------------------------------------------------------------
  // Multi-line text
  // ---------------------------------------------------------------------------

  /** `text.split('\n')`: at least one piece, none of them holding a line
      break; an empty text gives one empty line. */
  function SplitLines(s: string): (lines: seq<string>)
    ensures |lines| >= 1
    ensures forall i :: 0 <= i < |lines| ==> '\n' !in lines[i]
  {
    if s == [] then [""]
    else
      var rest := SplitLines(s[1..]);
      assert s == [s[0]] + s[1..];
      if s[0] == '\n' then [""] + rest
      else [[s[0]] + rest[0]] + rest[1..]
  }

  /** There is one more line than there are line breaks. */
  lemma {:induction false} SplitLinesCount(s: string)
    ensures |SplitLines(s)| == multiset(s)['\n'] + 1
  {
    if s != [] {
      SplitLinesCount(s[1..]);
      assert s == [s[0]] + s[1..];
      assert multiset(s) == multiset{s[0]} + multiset(s[1..]);
    }
  }

  /** `lines.join('\n')`. */
  function JoinLines(lines: seq<string>): string
    requires |lines| >= 1
  {
    if |lines| == 1 then lines[0] else lines[0] + "\n" + JoinLines(lines[1..])
  }

  /** Joining the pieces gives back the text. */
  lemma {:induction false} JoinSplitLines(s: string)
    ensures JoinLines(SplitLines(s)) == s
  {
    if s != [] {
      var rest := SplitLines(s[1..]);
      var lines := SplitLines(s);
      JoinSplitLines(s[1..]);
      assert JoinLines(rest) == s[1..];
      if s[0] == '\n' {
        assert lines == [""] + rest;
        assert lines[1..] == rest;
        assert JoinLines(lines) == "" + "\n" + JoinLines(rest);
        assert s == "\n" + s[1..];
      } else if |rest| == 1 {
        assert lines == [[s[0]] + rest[0]];
        assert JoinLines(rest) == rest[0];
        assert s == [s[0]] + s[1..];
      } else {
        var head := [s[0]] + rest[0];
        assert lines == [head] + rest[1..];
        assert lines[1..] == rest[1..];
        assert JoinLines(lines) == head + "\n" + JoinLines(rest[1..]);
        assert JoinLines(rest) == rest[0] + "\n" + JoinLines(rest[1..]);
        assert head + "\n" + JoinLines(rest[1..]) == [s[0]] + JoinLines(rest);
        assert s == [s[0]] + s[1..];
      }
    }
  }

  lemma {:induction false} SplitLinesPrefix(a: string, b: string)
    requires '\n' !in a
    ensures SplitLines(a + b) == [a + SplitLines(b)[0]] + SplitLines(b)[1..]
  {
    if a != [] {
      assert (a + b)[1..] == a[1..] + b;
      SplitLinesPrefix(a[1..], b);
      var sb := SplitLines(b);
      assert (a + b)[0] == a[0];
      assert SplitLines(a + b) == [[a[0]] + (a[1..] + sb[0])] + sb[1..];
      assert [a[0]] + (a[1..] + sb[0]) == a + sb[0];
    } else {
      var rest := SplitLines(b);
      assert a + b == b;
      assert a + rest[0] == rest[0];
      assert [rest[0]] + rest[1..] == rest;
    }
  }

  /** Splitting the joined lines gives back the lines, when none of them
      holds a line break. */
  lemma {:induction false} SplitJoinLines(lines: seq<string>)
    requires |lines| >= 1
    requires forall i :: 0 <= i < |lines| ==> '\n' !in lines[i]
    ensures SplitLines(JoinLines(lines)) == lines
  {
    if |lines| == 1 {
      SplitLinesPrefix(lines[0], "");
      assert lines[0] + "" == lines[0];
    } else {
      SplitJoinLines(lines[1..]);
      SplitAfterBreak(lines[0], JoinLines(lines[1..]), lines[1..]);
      assert [lines[0]] + lines[1..] == lines;
    }
  }

  /** A line without a break, a break, then text that splits into `rest`. */
  lemma SplitAfterBreak(first: string, tail: string, rest: seq<string>)
    requires '\n' !in first && SplitLines(tail) == rest
    ensures SplitLines(first + "\n" + tail) == [first] + rest
  {
    assert first + "\n" + tail == first + ("\n" + tail);
    SplitLinesPrefix(first, "\n" + tail);
    SplitLinesBreak(tail);
    assert first + "" == first;
  }

  lemma SplitLinesBreak(tail: string)
    ensures SplitLines("\n" + tail) == [""] + SplitLines(tail)
  {
    assert ("\n" + tail)[1..] == tail;
  }

  /** `y + (index - (lines.length - 1) / 2) * lineHeight`. */
  function LineY(y: real, index: nat, count: nat, lineHeight: real): real {
    y + (index as real - (count as real - 1.0) / 2.0) * lineHeight
  }

  /** Consecutive lines are one line height apart. */
  lemma LineSpacing(y: real, index: nat, count: nat, lineHeight: real)
    ensures LineY(y, index + 1, count, lineHeight) - LineY(y, index, count, lineHeight) == lineHeight
  {
  }

  /** The block of lines is symmetric about `y`: line `i` lies as far above
      `y` as line `count - 1 - i` lies below it. */
  lemma LineSymmetry(y: real, index: nat, count: nat, lineHeight: real)
    requires index < count
    ensures LineY(y, index, count, lineHeight) - y == y - LineY(y, count - 1 - index, count, lineHeight)
  {
  }

  // ---------------------------------------------------------------------------
  // Layers
  // ---------------------------------------------------------------------------

  /** One `fillText(line, x, lineY)` call. */
  datatype TextLine = TextLine(text: string, x: real, y: real)

  /** Everything the canvas is given for one visible element. `fontPx` is
      the size in the font string, `fontSize * scale`; `shadow` is whether the
      fixed shadow is switched on. */
  datatype TextLayer = TextLayer(
    elementId: string,
    opacity: real,
    scale: real,
    translateY: real,
    fontWeight: string,
    fontPx: real,
    fontFamily: string,
    color: string,
    textAlign: TextAlign,
    shadow: bool,
    x: real,
    y: real,
    lineHeight: real,
    lines: seq<TextLine>)

  /** The layer of one element on a `width` by `height` canvas at time `t`,
      or nothing when the element is outside its time window. */
  function ElementLayer(e: TextElement, t: real, width: nat, height: nat): (r: Option<TextLayer>)
    ensures r.Some? <==> Visible(e, t)
    ensures r.Some? ==> r.value.elementId == e.id
    ensures r.Some? ==> Effect(r.value.opacity, r.value.scale, r.value.translateY)
                        == AnimationEffect(e.animation, Progress(e, t))
    ensures r.Some? ==> r.value.x == e.position.x / 100.0 * width as real
    ensures r.Some? ==> r.value.y == e.position.y / 100.0 * height as real + r.value.translateY
    ensures r.Some? ==> r.value.fontPx == e.style.fontSize * r.value.scale
    ensures r.Some? ==> r.value.lineHeight == r.value.fontPx * 1.2
    ensures r.Some? ==> |r.value.lines| == |SplitLines(e.text)|
    ensures r.Some? ==> forall i :: 0 <= i < |r.value.lines| ==>
      r.value.lines[i] == TextLine(SplitLines(e.text)[i], r.value.x,
                                   LineY(r.value.y, i, |r.value.lines|, r.value.lineHeight))
  {
    if !Visible(e, t) then None
    else
      var f := AnimationEffect(e.animation, Progress(e, t));
      var x := e.position.x / 100.0 * width as real;
      var y := e.position.y / 100.0 * height as real + f.translateY;
      var fontPx := e.style.fontSize * f.scale;
      var lineHeight := fontPx * 1.2;
      var texts := SplitLines(e.text);
      var lines := seq(|texts|, i requires 0 <= i < |texts| => TextLine(texts[i], x, LineY(y, i, |texts|, lineHeight)));
      Some(TextLayer(e.id, f.opacity, f.scale, f.translateY,
                     e.style.fontWeight, fontPx, e.style.fontFamily, e.style.color, e.style.textAlign,
                     e.style.textShadow.Some? && e.style.textShadow.value != "",
                     x, y, lineHeight, lines))
  }

  /** Once the ramp is over (for a positive ramp duration) an element sits
      at its resting place: opaque, full size, at its own position. */
  lemma SettledLayer(e: TextElement, t: real, width: nat, height: nat)
    requires Visible(e, t)
    requires RampDuration(e.animation) > 0.0
    requires t >= e.timing.startTime + RampDuration(e.animation)
    ensures ElementLayer(e, t, width, height).Some?
    ensures ElementLayer(e, t, width, height).value.opacity == 1.0
    ensures ElementLayer(e, t, width, height).value.fontPx == e.style.fontSize
    ensures ElementLayer(e, t, width, height).value.y == e.position.y / 100.0 * height as real
  {
    EffectSettles(e.animation);
  }

  /** `textElements.forEach(...)`: the layers of the visible elements, in
      list order. */
  function TextLayers(es: seq<TextElement>, t: real, width: nat, height: nat): (r: seq<TextLayer>)
    ensures |r| <= |es|
  {
    if es == [] then []
    else
      var head := ElementLayer(es[0], t, width, height);
      (if head.Some? then [head.value] else []) + TextLayers(es[1..], t, width, height)
  }

  /** Layers follow the element order: the layers of a concatenation are the
      layers of the first part followed by those of the second. */
  lemma {:induction false} TextLayersAppend(a: seq<TextElement>, b: seq<TextElement>, t: real, width: nat, height: nat)
    ensures TextLayers(a + b, t, width, height) == TextLayers(a, t, width, height) + TextLayers(b, t, width, height)
  {
    if a == [] {
      assert a + b == b;
    } else {
      var head := ElementLayer(a[0], t, width, height);
      var first := if head.Some? then [head.value] else [];
      assert (a + b)[0] == a[0];
      assert (a + b)[1..] == a[1..] + b;
      TextLayersAppend(a[1..], b, t, width, height);
      calc {
        TextLayers(a + b, t, width, height);
        first + TextLayers(a[1..] + b, t, width, height);
        first + (TextLayers(a[1..], t, width, height) + TextLayers(b, t, width, height));
        (first + TextLayers(a[1..], t, width, height)) + TextLayers(b, t, width, height);
        TextLayers(a, t, width, height) + TextLayers(b, t, width, height);
      }
    }
  }

  /** Exactly the visible elements contribute a layer, each carrying its id. */
  lemma {:induction false} TextLayersIds(es: seq<TextElement>, t: real, width: nat, height: nat)
    ensures forall l :: l in TextLayers(es, t, width, height) ==>
      exists e :: e in es && Visible(e, t) && l == ElementLayer(e, t, width, height).value
    ensures forall e :: e in es && Visible(e, t) ==> ElementLayer(e, t, width, height).value in TextLayers(es, t, width, height)
  {
    if es != [] {
      TextLayersIds(es[1..], t, width, height);
      assert es == [es[0]] + es[1..];
    }
  }

  // ---------------------------------------------------------------------------
  // Whole frames: export and preview
  // ---------------------------------------------------------------------------

  /** What is painted under the text; `Blank` is the cleared canvas with
      nothing drawn on it. */
  datatype Background = DefaultGradient | MediaImage | Blank

  /** A frame: the background first, then the text layers in order. */
  datatype Frame = Frame(background: Background, texts: seq<TextLayer>)

  /** `drawFrameAtTime(ctx, time)` on the export canvas, which is sized to
      the template's settings. Both branches of its background test paint the
      same gradient, so an export never shows the background media. */
  function ExportFrame(tpl: VideoTemplate, t: real): (f: Frame)
    ensures f.background == DefaultGradient
    ensures f.texts == TextLayers(tpl.textElements, t, tpl.settings.width, tpl.settings.height)
  {
    Frame(DefaultGradient, TextLayers(tpl.textElements, t, tpl.settings.width, tpl.settings.height))
  }

  /** How the preview's background image request ends: no object URL is
      held (the gradient branch), the URL decodes as an image and `onload`
      fires, or it does not and `onload` never fires. */
  datatype ImageLoad = NoImageUrl | ImageLoaded | ImageNeverLoads

  /** `drawFrame()` of the preview at `currentTime`. The canvas is cleared
      first. Without an object URL the gradient and then the text are drawn.
      With one, the image and then the text are drawn only once the image
      has loaded, so a URL that never loads leaves the canvas blank. */
  function PreviewFrame(tpl: VideoTemplate, currentTime: real, load: ImageLoad): (f: Frame)
    ensures load == NoImageUrl ==> f.background == DefaultGradient
    ensures load == ImageLoaded ==> f.background == MediaImage
    ensures load == ImageNeverLoads ==> f.background == Blank && f.texts == []
  {
    match load
    case NoImageUrl =>
      Frame(DefaultGradient, TextLayers(tpl.textElements, currentTime, tpl.settings.width, tpl.settings.height))
    case ImageLoaded =>
      Frame(MediaImage, TextLayers(tpl.textElements, currentTime, tpl.settings.width, tpl.settings.height))
    case ImageNeverLoads =>
      Frame(Blank, [])
  }

  /** Preview/export parity: at the same time the preview draws the same
      text layers as the export whenever its background request does not
      hang, and without a background URL the very same frame. The last
      clause illustrates, from `PreviewFrame`'s blank case, that parity
      fails when the request hangs and the export has text. */
  lemma PreviewExportParity(tpl: VideoTemplate, t: real, load: ImageLoad)
    ensures load != ImageNeverLoads ==> PreviewFrame(tpl, t, load).texts == ExportFrame(tpl, t).texts
    ensures load == NoImageUrl ==> PreviewFrame(tpl, t, load) == ExportFrame(tpl, t)
    ensures load == ImageNeverLoads && ExportFrame(tpl, t).texts != [] ==>
      PreviewFrame(tpl, t, load).texts != ExportFrame(tpl, t).texts
  {
  }

  /** The exported frame does not depend on the background media. */
  lemma ExportIgnoresBackground(tpl: VideoTemplate, m: Option<BackgroundMedia>, t: real)
    ensures ExportFrame(tpl.(backgroundMedia := m), t) == ExportFrame(tpl, t)
  {
  }

  // ---------------------------------------------------------------------------
  // The starting template, frame by frame
  // ---------------------------------------------------------------------------

  /** A one-element list draws that element's layer when it is visible and
      nothing otherwise. */
  lemma TextLayersSingle(e: TextElement, t: real, width: nat, height: nat)
    ensures TextLayers([e], t, width, height)
      == if Visible(e, t) then [ElementLayer(e, t, width, height).value] else []
  {
    assert [e][1..] == [];
  }

  /** The opacity of the starting template's quote while it is visible:
      the fade-in ramp over its first second, then fully opaque. */
  lemma QuoteOpacity(t: real)
    requires 1.0 <= t <= 9.0
    ensures ElementLayer(TemplateHook.QuoteText, t, 1080, 1920).Some?
    ensures ElementLayer(TemplateHook.QuoteText, t, 1080, 1920).value.opacity == Min1(t - 1.0)
  {
    var q := TemplateHook.QuoteText;
    assert RampDuration(q.animation) == 1.0;
    assert Progress(q, t) == Min1((t - 1.0) / 1.0);
  }

  /** The quote of the starting template (timing 1..9, fade-in over one
      second) as the export draws it: absent before 1 and after 9,
      transparent at 1, half visible at 1.5, opaque from 2 to 9. */
  lemma InitialTemplateTimeline(t: real)
    ensures var texts := ExportFrame(TemplateHook.InitialTemplate(), t).texts;
      && (t < 1.0 || t > 9.0 <==> texts == [])
      && (t == 1.0 ==> texts[0].opacity == 0.0)
      && (t == 1.5 ==> texts[0].opacity == 0.5)
      && (2.0 <= t <= 9.0 ==> texts[0].opacity == 1.0)
  {
    var tpl := TemplateHook.InitialTemplate();
    var q := TemplateHook.QuoteText;
    assert tpl.textElements == [q];
    TextLayersSingle(q, t, 1080, 1920);
    if 1.0 <= t <= 9.0 {
      QuoteOpacity(t);
    }
  }
}
