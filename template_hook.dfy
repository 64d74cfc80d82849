/** The template state hook: the initial template and the four updaters the
    editor applies to it. Each updater is a pure function from the previous
    template to the next one, as React's functional `setState` updaters are. */
module TemplateHook {
  import opened Wrappers
  import opened VideoTemplateTypes

  // ---------------------------------------------------------------------------
  // Initial template
  // ---------------------------------------------------------------------------

  const QuoteText := TextElement(
    "quote-text",
    "Your inspirational quote here",
    Position(50.0, 50.0),
    Style(32.0, "bold", "#ffffff", "Arial, sans-serif", Center, Some("2px 2px 4px rgba(0,0,0,0.8)")),
    Some(Animation(FadeIn, 1.0, 1.0)),
    Timing(1.0, 9.0))

  /** The template the editor starts with. */
  function InitialTemplate(): (t: VideoTemplate)
    ensures t.duration == 10.0
    ensures t.settings == Settings(1080, 1920, 30.0)
    ensures t.backgroundMedia == Some(BackgroundMedia(Image, None, None))
    ensures t.audioTrack == Some(AudioTrack(None, None, Some(0.7)))
    ensures |t.textElements| == 1 && t.textElements[0].id == "quote-text"
    ensures t.textElements[0].timing == Timing(1.0, 9.0)
    ensures t.textElements[0].animation == Some(Animation(FadeIn, 1.0, 1.0))
  {
    VideoTemplate(
      "template-1",
      "Quote Video Template",
      10.0,
      Some(BackgroundMedia(Image, None, None)),
      [QuoteText],
      Some(AudioTrack(None, None, Some(0.7))),
      Settings(1080, 1920, 30.0))
  }

  // ---------------------------------------------------------------------------
  // updateTemplate: shallow merge of a Partial<VideoTemplate>
  // ---------------------------------------------------------------------------

  /** A `Partial<VideoTemplate>`: `None` for a field the patch does not carry.
      The optional fields of the template can be patched to "absent", hence the
      nested options. */
  datatype TemplatePatch = TemplatePatch(
    id: Option<string>,
    name: Option<string>,
    duration: Option<real>,
    backgroundMedia: Option<Option<BackgroundMedia>>,
    textElements: Option<seq<TextElement>>,
    audioTrack: Option<Option<AudioTrack>>,
    settings: Option<Settings>)

  const EmptyPatch := TemplatePatch(None, None, None, None, None, None, None)

  /** `{ ...prev, ...updates }`: every field the patch carries overwrites the
      template's, every other field is kept. */
  function UpdateTemplate(t: VideoTemplate, p: TemplatePatch): (r: VideoTemplate)
    ensures p.id.Some? ==> r.id == p.id.value
    ensures p.id.None? ==> r.id == t.id
    ensures p.name.Some? ==> r.name == p.name.value
    ensures p.name.None? ==> r.name == t.name
    ensures p.duration.Some? ==> r.duration == p.duration.value
    ensures p.duration.None? ==> r.duration == t.duration
    ensures p.backgroundMedia.Some? ==> r.backgroundMedia == p.backgroundMedia.value
    ensures p.backgroundMedia.None? ==> r.backgroundMedia == t.backgroundMedia
    ensures p.textElements.Some? ==> r.textElements == p.textElements.value
    ensures p.textElements.None? ==> r.textElements == t.textElements
    ensures p.audioTrack.Some? ==> r.audioTrack == p.audioTrack.value
    ensures p.audioTrack.None? ==> r.audioTrack == t.audioTrack
    ensures p.settings.Some? ==> r.settings == p.settings.value
    ensures p.settings.None? ==> r.settings == t.settings
  {
    VideoTemplate(
      p.id.GetOr(t.id),
      p.name.GetOr(t.name),
      p.duration.GetOr(t.duration),
      p.backgroundMedia.GetOr(t.backgroundMedia),
      p.textElements.GetOr(t.textElements),
      p.audioTrack.GetOr(t.audioTrack),
      p.settings.GetOr(t.settings))
  }

  /** The patch `{ ...p, ...q }`: the fields of `q` win over those of `p`. */
  function ComposePatches(p: TemplatePatch, q: TemplatePatch): TemplatePatch {
    TemplatePatch(
      if q.id.Some? then q.id else p.id,
      if q.name.Some? then q.name else p.name,
      if q.duration.Some? then q.duration else p.duration,
      if q.backgroundMedia.Some? then q.backgroundMedia else p.backgroundMedia,
      if q.textElements.Some? then q.textElements else p.textElements,
      if q.audioTrack.Some? then q.audioTrack else p.audioTrack,
      if q.settings.Some? then q.settings else p.settings)
  }

  /** An empty patch changes nothing. */
  lemma UpdateTemplateEmpty(t: VideoTemplate)
    ensures UpdateTemplate(t, EmptyPatch) == t
  {
  }

  /** Two successive merges are one merge with the composed patch. */
  lemma UpdateTemplateCompose(t: VideoTemplate, p: TemplatePatch, q: TemplatePatch)
    ensures UpdateTemplate(UpdateTemplate(t, p), q) == UpdateTemplate(t, ComposePatches(p, q))
  {
  }

  /** Applying the same patch twice is applying it once. */
  lemma UpdateTemplateIdempotent(t: VideoTemplate, p: TemplatePatch)
    ensures UpdateTemplate(UpdateTemplate(t, p), p) == UpdateTemplate(t, p)
  {
  }

  // ---------------------------------------------------------------------------
  // updateTextElement: shallow merge of a Partial<TextElement> by id
  // ---------------------------------------------------------------------------

  /** A `Partial<TextElement>`. */
  datatype ElementPatch = ElementPatch(
    id: Option<string>,
    text: Option<string>,
    position: Option<Position>,
    style: Option<Style>,
    animation: Option<Option<Animation>>,
    timing: Option<Timing>)

  /** `{ ...element, ...updates }`: a nested object the patch carries (style,
      position, animation, timing) replaces the element's whole. */
  function MergeElement(e: TextElement, p: ElementPatch): (r: TextElement)
    ensures p.id.Some? ==> r.id == p.id.value
    ensures p.id.None? ==> r.id == e.id
    ensures p.text.Some? ==> r.text == p.text.value
    ensures p.text.None? ==> r.text == e.text
    ensures p.position.Some? ==> r.position == p.position.value
    ensures p.position.None? ==> r.position == e.position
    ensures p.style.Some? ==> r.style == p.style.value
    ensures p.style.None? ==> r.style == e.style
    ensures p.animation.Some? ==> r.animation == p.animation.value
    ensures p.animation.None? ==> r.animation == e.animation
    ensures p.timing.Some? ==> r.timing == p.timing.value
    ensures p.timing.None? ==> r.timing == e.timing
  {
    TextElement(
      p.id.GetOr(e.id),
      p.text.GetOr(e.text),
      p.position.GetOr(e.position),
      p.style.GetOr(e.style),
      p.animation.GetOr(e.animation),
      p.timing.GetOr(e.timing))
  }

  /** `textElements.map(el => el.id === id ? { ...el, ...updates } : el)`, the
      rest of the template kept. */
  function UpdateTextElement(t: VideoTemplate, id: string, p: ElementPatch): (r: VideoTemplate)
    ensures r == t.(textElements := r.textElements)
    ensures |r.textElements| == |t.textElements|
    ensures forall i :: 0 <= i < |t.textElements| && t.textElements[i].id != id ==>
      r.textElements[i] == t.textElements[i]
    ensures forall i :: 0 <= i < |t.textElements| && t.textElements[i].id == id ==>
      r.textElements[i] == MergeElement(t.textElements[i], p)
  {
    var es := t.textElements;
    t.(textElements := seq(|es|, i requires 0 <= i < |es| =>
      if es[i].id == id then MergeElement(es[i], p) else es[i]))
  }

  /** An id that no element carries leaves the template as it was. */
  lemma UpdateTextElementUnknownId(t: VideoTemplate, id: string, p: ElementPatch)
    requires forall e :: e in t.textElements ==> e.id != id
    ensures UpdateTextElement(t, id, p) == t
  {
    var r := UpdateTextElement(t, id, p);
    assert r.textElements == t.textElements by {
      forall i | 0 <= i < |t.textElements|
        ensures r.textElements[i] == t.textElements[i]
      {
        assert t.textElements[i] in t.textElements;
      }
    }
  }

  /** A patch that does not carry an id keeps every element's id, so the list
      of ids (and thus what later updates and removals address) is the same. */
  lemma UpdateTextElementKeepsIds(t: VideoTemplate, id: string, p: ElementPatch, i: int)
    requires p.id.None?
    requires 0 <= i < |t.textElements|
    ensures UpdateTextElement(t, id, p).textElements[i].id == t.textElements[i].id
  {
  }

  // ---------------------------------------------------------------------------
  // addTextElement and removeTextElement
  // ---------------------------------------------------------------------------

  /** `[...prev.textElements, element]`, the rest of the template kept. */
  function AddTextElement(t: VideoTemplate, e: TextElement): (r: VideoTemplate)
    ensures r == t.(textElements := r.textElements)
    ensures |r.textElements| == |t.textElements| + 1
    ensures r.textElements[..|t.textElements|] == t.textElements
    ensures r.textElements[|t.textElements|] == e
  {
    t.(textElements := t.textElements + [e])
  }

  /** `elements.filter(el => el.id !== id)`. */
  function WithoutId(es: seq<TextElement>, id: string): (r: seq<TextElement>)
    ensures |r| <= |es|
  {
    if es == [] then []
    else if es[0].id == id then WithoutId(es[1..], id)
    else [es[0]] + WithoutId(es[1..], id)
  }

  /** An element is kept exactly when it was there and carries another id. */
  lemma {:induction false} WithoutIdMembers(es: seq<TextElement>, id: string)
    ensures forall e :: e in WithoutId(es, id) <==> e in es && e.id != id
  {
    if es != [] {
      WithoutIdMembers(es[1..], id);
      assert es == [es[0]] + es[1..];
    }
  }

  /** Filtering distributes over concatenation: the kept elements stay in
      their original order. */
  lemma {:induction false} WithoutIdAppend(a: seq<TextElement>, b: seq<TextElement>, id: string)
    ensures WithoutId(a + b, id) == WithoutId(a, id) + WithoutId(b, id)
  {
    if a != [] {
      var first := if a[0].id == id then [] else [a[0]];
      assert (a + b)[0] == a[0];
      assert (a + b)[1..] == a[1..] + b;
      WithoutIdAppend(a[1..], b, id);
      calc {
        WithoutId(a + b, id);
        first + WithoutId(a[1..] + b, id);
        first + (WithoutId(a[1..], id) + WithoutId(b, id));
        (first + WithoutId(a[1..], id)) + WithoutId(b, id);
        WithoutId(a, id) + WithoutId(b, id);
      }
    } else {
      assert a + b == b;
    }
  }

  /** Removing an id that no element carries changes nothing. */
  lemma {:induction false} WithoutIdAbsent(es: seq<TextElement>, id: string)
    requires forall e :: e in es ==> e.id != id
    ensures WithoutId(es, id) == es
  {
    if es != [] {
      assert es[0] in es;
      assert forall e :: e in es[1..] ==> e in es;
      WithoutIdAbsent(es[1..], id);
    }
  }

  /** `prev.textElements.filter(...)`, the rest of the template kept. */
  function RemoveTextElement(t: VideoTemplate, id: string): (r: VideoTemplate)
    ensures r == t.(textElements := r.textElements)
    ensures forall e :: e in r.textElements ==> e.id != id
    ensures forall e :: e in t.textElements && e.id != id ==> e in r.textElements
  {
    WithoutIdMembers(t.textElements, id);
    t.(textElements := WithoutId(t.textElements, id))
  }

  /** Removing twice is removing once. */
  lemma RemoveTextElementIdempotent(t: VideoTemplate, id: string)
    ensures RemoveTextElement(RemoveTextElement(t, id), id) == RemoveTextElement(t, id)
  {
    WithoutIdAbsent(RemoveTextElement(t, id).textElements, id);
  }

  /** Removing an id that no element carries is a no-op. */
  lemma RemoveTextElementAbsent(t: VideoTemplate, id: string)
    requires forall e :: e in t.textElements ==> e.id != id
    ensures RemoveTextElement(t, id) == t
  {
    WithoutIdAbsent(t.textElements, id);
  }

  /** Adding an element with a fresh id and then removing that id gives back
      the template. */
  lemma RemoveAfterAdd(t: VideoTemplate, e: TextElement)
    requires forall x :: x in t.textElements ==> x.id != e.id
    ensures RemoveTextElement(AddTextElement(t, e), e.id) == t
  {
    WithoutIdAppend(t.textElements, [e], e.id);
    WithoutIdAbsent(t.textElements, e.id);
    assert WithoutId([e], e.id) == [];
  }
}
