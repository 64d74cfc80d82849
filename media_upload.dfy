/** The upload panel's decisions: which background and audio files are
    accepted, and the template patches that uploading or removing media
    hands to the template's `updateTemplate`. A rejection is an error value
    (the panel shows a toast and patches nothing). */
module MediaUpload {
  import opened Wrappers
  import opened VideoTemplateTypes
  import opened TemplateHook
  import Text

  const MaxBackgroundBytes: nat := 50 * 1024 * 1024
  const MaxAudioBytes: nat := 20 * 1024 * 1024

  datatype UploadError = NoFileSelected | UnsupportedType | FileTooLarge

  predicate IsBackgroundType(mimeType: string) {
    Text.StartsWith(mimeType, "image/") || Text.StartsWith(mimeType, "video/")
  }

  /** `handleBackgroundUpload` for the first selected file, if any: the type
      is checked before the size, and an accepted file becomes the background
      with kind image for an `image/` type and video otherwise. */
  function BackgroundUpload(file: Option<MediaFile>): (r: Result<TemplatePatch, UploadError>)
    ensures r.Ok? <==> file.Some? && IsBackgroundType(file.value.mimeType) && file.value.size <= MaxBackgroundBytes
    ensures file.None? ==> r == Err(NoFileSelected)
    ensures file.Some? && !IsBackgroundType(file.value.mimeType) ==> r == Err(UnsupportedType)
    ensures file.Some? && IsBackgroundType(file.value.mimeType) && file.value.size > MaxBackgroundBytes ==>
      r == Err(FileTooLarge)
    ensures r.Ok? ==> r.value == EmptyPatch.(backgroundMedia := r.value.backgroundMedia)
    ensures r.Ok? ==> r.value.backgroundMedia == Some(Some(BackgroundMedia(
      if Text.StartsWith(file.value.mimeType, "image/") then Image else Video, file, None)))
  {
    match file
    case None => Err(NoFileSelected)
    case Some(f) =>
      if !IsBackgroundType(f.mimeType) then Err(UnsupportedType)
      else if f.size > MaxBackgroundBytes then Err(FileTooLarge)
      else
        var kind := if Text.StartsWith(f.mimeType, "image/") then Image else Video;
        Ok(EmptyPatch.(backgroundMedia := Some(Some(BackgroundMedia(kind, Some(f), None)))))
  }

  /** `{ ...template.audioTrack, file }`: the previous track with its file
      replaced; without a previous track, a track holding only the file. */
  function WithAudioFile(current: Option<AudioTrack>, file: Option<MediaFile>): (a: AudioTrack)
    ensures a.file == file
    ensures current.Some? ==> a.url == current.value.url && a.volume == current.value.volume
    ensures current.None? ==> a.url.None? && a.volume.None?
  {
    match current
    case Some(track) => track.(file := file)
    case None => AudioTrack(file, None, None)
  }

  /** `handleAudioUpload` for the first selected file, if any: only an
      `audio/` type of at most 20 MiB is accepted, and it replaces the file of
      the current track, keeping the rest of it. */
  function AudioUpload(current: Option<AudioTrack>, file: Option<MediaFile>): (r: Result<TemplatePatch, UploadError>)
    ensures r.Ok? <==> file.Some? && Text.StartsWith(file.value.mimeType, "audio/") && file.value.size <= MaxAudioBytes
    ensures file.None? ==> r == Err(NoFileSelected)
    ensures file.Some? && !Text.StartsWith(file.value.mimeType, "audio/") ==> r == Err(UnsupportedType)
    ensures file.Some? && Text.StartsWith(file.value.mimeType, "audio/") && file.value.size > MaxAudioBytes ==>
      r == Err(FileTooLarge)
    ensures r.Ok? ==> r.value == EmptyPatch.(audioTrack := Some(Some(WithAudioFile(current, file))))
  {
    match file
    case None => Err(NoFileSelected)
    case Some(f) =>
      if !Text.StartsWith(f.mimeType, "audio/") then Err(UnsupportedType)
      else if f.size > MaxAudioBytes then Err(FileTooLarge)
      else Ok(EmptyPatch.(audioTrack := Some(Some(WithAudioFile(current, file)))))
  }

  /** `removeBackground`: the background becomes an image without a file,
      and nothing else is patched. */
  function RemoveBackground(): (p: TemplatePatch)
    ensures p == EmptyPatch.(backgroundMedia := p.backgroundMedia)
    ensures p.backgroundMedia.Some? && p.backgroundMedia.value.Some?
    ensures p.backgroundMedia.value.value.kind == Image && p.backgroundMedia.value.value.file.None?
  {
    EmptyPatch.(backgroundMedia := Some(Some(BackgroundMedia(Image, None, None))))
  }

  /** `removeAudio`: the current track without its file. */
  function RemoveAudio(current: Option<AudioTrack>): (p: TemplatePatch)
    ensures p.audioTrack.Some? && p.audioTrack.value.Some?
    ensures p.audioTrack.value.value.file.None?
    ensures current.Some? ==> p.audioTrack.value.value.volume == current.value.volume
    ensures p == EmptyPatch.(audioTrack := p.audioTrack)
  {
    EmptyPatch.(audioTrack := Some(Some(WithAudioFile(current, None))))
  }

  /** What the template becomes: the patch is handed to `updateTemplate`
      when the upload is accepted, and nothing happens otherwise. */
  function ApplyUpload(t: VideoTemplate, r: Result<TemplatePatch, UploadError>): (u: VideoTemplate)
    ensures r.Err? ==> u == t
    ensures r.Ok? && r.value == EmptyPatch ==> u == t
  {
    if r.Ok? then UpdateTemplate(t, r.value) else t
  }

  /** A missing or rejected file leaves the template unchanged. */
  lemma RejectedUploadKeepsTemplate(t: VideoTemplate, file: Option<MediaFile>)
    ensures BackgroundUpload(file).Err? ==> ApplyUpload(t, BackgroundUpload(file)) == t
    ensures AudioUpload(t.audioTrack, file).Err? ==> ApplyUpload(t, AudioUpload(t.audioTrack, file)) == t
  {
  }

  /** An accepted background replaces the background and nothing else. */
  lemma AcceptedBackground(t: VideoTemplate, f: MediaFile)
    requires BackgroundUpload(Some(f)).Ok?
    ensures ApplyUpload(t, BackgroundUpload(Some(f))) == t.(backgroundMedia := Some(BackgroundMedia(
      if Text.StartsWith(f.mimeType, "image/") then Image else Video, Some(f), None)))
  {
  }

  /** An accepted audio file replaces only the file of the current track:
      its volume (and URL) stay, and nothing else in the template changes. */
  lemma AcceptedAudioKeepsVolume(t: VideoTemplate, f: MediaFile)
    requires t.audioTrack.Some?
    requires AudioUpload(t.audioTrack, Some(f)).Ok?
    ensures ApplyUpload(t, AudioUpload(t.audioTrack, Some(f)))
      == t.(audioTrack := Some(t.audioTrack.value.(file := Some(f))))
  {
  }

  /** Removing the background leaves an image background without a file
      and changes nothing else; after an accepted upload it gives the same
      template as removing without the upload. */
  lemma RemoveBackgroundResets(t: VideoTemplate, file: Option<MediaFile>)
    ensures UpdateTemplate(t, RemoveBackground()) == t.(backgroundMedia := Some(BackgroundMedia(Image, None, None)))
    ensures UpdateTemplate(ApplyUpload(t, BackgroundUpload(file)), RemoveBackground())
      == UpdateTemplate(t, RemoveBackground())
  {
  }

  /** Removing the audio keeps the volume and drops the file. */
  lemma RemoveAudioKeepsVolume(t: VideoTemplate)
    requires t.audioTrack.Some?
    ensures UpdateTemplate(t, RemoveAudio(t.audioTrack))
      == t.(audioTrack := Some(t.audioTrack.value.(file := None)))
  {
  }

  /** Uploading audio and then removing it gives the same template as
      removing it straight away. */
  lemma RemoveAudioAfterUpload(t: VideoTemplate, file: Option<MediaFile>)
    requires t.audioTrack.Some?
    ensures var u := ApplyUpload(t, AudioUpload(t.audioTrack, file));
      UpdateTemplate(u, RemoveAudio(u.audioTrack)) == UpdateTemplate(t, RemoveAudio(t.audioTrack))
  {
  }

  /** An illustration of the contracts of `BackgroundUpload` and
      `AudioUpload` at the boundaries: a background of exactly 50 MiB and an
      audio file of exactly 20 MiB are accepted, one byte more is refused;
      a file of the wrong type is refused for its type whatever its size. */
  lemma SizeLimits()
    ensures BackgroundUpload(Some(MediaFile("image/png", 52428800))).Ok?
    ensures BackgroundUpload(Some(MediaFile("video/mp4", 52428801))) == Err(FileTooLarge)
    ensures AudioUpload(None, Some(MediaFile("audio/mpeg", 20971520))).Ok?
    ensures AudioUpload(None, Some(MediaFile("audio/mpeg", 20971521))) == Err(FileTooLarge)
    ensures BackgroundUpload(Some(MediaFile("text/plain", 52428801))) == Err(UnsupportedType)
  {
    assert Text.StartsWith("image/png", "image/") by { assert "image/png"[..6] == "image/"; }
    assert Text.StartsWith("video/mp4", "video/") by { assert "video/mp4"[..6] == "video/"; }
    assert Text.StartsWith("audio/mpeg", "audio/") by { assert "audio/mpeg"[..6] == "audio/"; }
    assert !Text.StartsWith("text/plain", "image/") by { assert "text/plain"[0] != "image/"[0]; }
    assert !Text.StartsWith("text/plain", "video/") by { assert "text/plain"[0] != "video/"[0]; }
  }
}
