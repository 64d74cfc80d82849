/** The editor's data model: a video template, its timed text elements and
    the export settings. Numbers the editor treats as seconds, percentages or
    pixels are exact reals; canvas dimensions are natural numbers. */
module VideoTemplateTypes {
  import opened Wrappers

  /** An uploaded `File`, seen only through its MIME type and its size. */
  datatype MediaFile = MediaFile(mimeType: string, size: nat)

  datatype BackgroundKind = Image | Video

  datatype BackgroundMedia = BackgroundMedia(kind: BackgroundKind, file: Option<MediaFile>, url: Option<string>)

  /** The audio track. The declared type makes `volume` required, but the
      upload handlers build a track by spreading the previous one, and when
      there was none the new track has no volume at all; `volume` is therefore
      optional here. */
  datatype AudioTrack = AudioTrack(file: Option<MediaFile>, url: Option<string>, volume: Option<real>)

  datatype Settings = Settings(width: nat, height: nat, fps: real)

  datatype Position = Position(x: real, y: real)

  datatype TextAlign = Left | Center | Right

  datatype Style = Style(
    fontSize: real,
    fontWeight: string,
    color: string,
    fontFamily: string,
    textAlign: TextAlign,
    textShadow: Option<string>)

  /** The kinds of entrance animation; `NoAnimation` is the source's 'none'. */
  datatype AnimationKind = FadeIn | SlideIn | ScaleIn | NoAnimation

  datatype Animation = Animation(kind: AnimationKind, delay: real, duration: real)

  datatype Timing = Timing(startTime: real, endTime: real)

  datatype TextElement = TextElement(
    id: string,
    text: string,
    position: Position,
    style: Style,
    animation: Option<Animation>,
    timing: Timing)

  datatype VideoTemplate = VideoTemplate(
    id: string,
    name: string,
    duration: real,
    backgroundMedia: Option<BackgroundMedia>,
    textElements: seq<TextElement>,
    audioTrack: Option<AudioTrack>,
    settings: Settings)

  datatype ExportFormat = Mp4 | Webm

  datatype Quality = Low | Medium | High

  datatype VideoExportSettings = VideoExportSettings(format: ExportFormat, quality: Quality, fps: real)
}
