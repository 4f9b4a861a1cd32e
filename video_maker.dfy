/** The video assembly stage: fetching missing assets, laying out the caption
    box drawn over each scene, and choosing which scenes become clips.
    The file system, the HTTP client and the imaging and media libraries are
    outside the model: whether a path exists is an oracle, a download is an
    abstract reply, the wrapped caption lines are given, and a clip is the
    record of what it is built from. */
module VideoMaker {
  import opened Common

  // ---------------------------------------------------------------------
  // Asset download

  /** A file smaller than this is treated as a failed earlier download. */
  const MinAssetBytes: nat := 1000

  /** What is on disk at a path. */
  datatype FileState = Missing | Present(size: nat)

  /** Saving the body: both steps went through, `open` raised (the file is
      untouched), or `write` raised after `open` truncated the file and
      `written` bytes reached it. */
  datatype SaveOutcome = Saved | OpenRaised | WriteRaised(written: nat)

  /** The reply to the asset GET: its status, body size and what saving the
      body would do, or the request raised. */
  datatype FetchReply = FetchResponse(status: int, bodySize: nat, save: SaveOutcome) | FetchRaised

  /** Whether `download_file` sends its request. */
  predicate NeedsDownload(file: FileState) {
    file.Missing? || file.size < MinAssetBytes
  }

  datatype DownloadOutcome = DownloadOutcome(fetched: bool, file: FileState)

  /** `download_file`: a missing or too small file is fetched, and the body is
      saved only on status 200; a present file of at least 1000 bytes is
      left alone and nothing is requested. An exception in the request or in
      `open` leaves the file as it was; one in `write` leaves the bytes
      written so far. */
  function DownloadFile(file: FileState, reply: FetchReply): (r: DownloadOutcome)
    ensures r.fetched <==> NeedsDownload(file)
    ensures r.file != file ==>
      r.fetched && reply.FetchResponse? && reply.status == 200 && !reply.save.OpenRaised?
    ensures r.fetched && reply.FetchResponse? && reply.status == 200 && reply.save.Saved? ==>
      r.file == Present(reply.bodySize)
    ensures r.fetched && reply.FetchResponse? && reply.status == 200 && reply.save.WriteRaised? ==>
      r.file == Present(reply.save.written)
  {
    if !NeedsDownload(file) then DownloadOutcome(false, file)
    else if reply.FetchResponse? && reply.status == 200 then
      match reply.save
      case Saved => DownloadOutcome(true, Present(reply.bodySize))
      case OpenRaised => DownloadOutcome(true, file)
      case WriteRaised(written) => DownloadOutcome(true, Present(written))
    else DownloadOutcome(true, file)
  }

  /** Once a body of at least 1000 bytes was saved, calling `download_file`
      again sends no request and changes nothing, whatever the server would answer. */
  lemma DownloadSettles(file: FileState, first: FetchReply, second: FetchReply)
    requires first.FetchResponse? && first.status == 200 && first.save.Saved? && first.bodySize >= MinAssetBytes
    ensures var after := DownloadFile(file, first).file;
      !DownloadFile(after, second).fetched && DownloadFile(after, second).file == after
  {
  }

  /** A file left under 1000 bytes by a failed write is fetched again on the
      next call: the size check doubles as recovery from an interrupted download. */
  lemma TruncatedIsRetried(file: FileState, first: FetchReply, second: FetchReply)
    requires NeedsDownload(file)
    requires first.FetchResponse? && first.status == 200 && first.save.WriteRaised?
    requires first.save.written < MinAssetBytes
    ensures DownloadFile(DownloadFile(file, first).file, second).fetched
  {
  }

  // ---------------------------------------------------------------------
  // Caption overlay

  /** The Devanagari block, U+0900 to U+097F. */
  predicate IsDevanagari(c: char) {
    '\U{0900}' <= c <= '\U{097F}'
  }

  /** `is_hindi`: the text holds at least one Devanagari character. */
  function IsHindi(text: string): (b: bool)
    ensures b <==> exists i :: 0 <= i < |text| && IsDevanagari(text[i])
  {
    if text == [] then false
    else if IsDevanagari(text[0]) then true
    else
      var rest := IsHindi(text[1..]);
      assert rest <==> exists i :: 1 <= i < |text| && IsDevanagari(text[i]) by {
        if rest {
          var i :| 0 <= i < |text[1..]| && IsDevanagari(text[1..][i]);
          assert IsDevanagari(text[i + 1]);
        }
      }
      rest
  }

  /** A caption is Hindi exactly when one of its parts is. */
  lemma {:induction false} IsHindiAppend(a: string, b: string)
    ensures IsHindi(a + b) <==> IsHindi(a) || IsHindi(b)
  {
    if IsHindi(a + b) {
      var i :| 0 <= i < |a + b| && IsDevanagari((a + b)[i]);
      if i >= |a| {
        assert IsDevanagari(b[i - |a|]);
      }
    }
    if IsHindi(a) {
      var i :| 0 <= i < |a| && IsDevanagari(a[i]);
      assert (a + b)[i] == a[i];
    }
    if IsHindi(b) {
      var i :| 0 <= i < |b| && IsDevanagari(b[i]);
      assert (a + b)[|a| + i] == b[i];
    }
  }

  const FontSize: nat := 25
  const LineSpacing: nat := 20
  const LineHeight: nat := FontSize + LineSpacing
  const PaddingVertical: nat := 30
  const BottomMargin: nat := 50
  const BoxLeft: int := 40
  const BoxRight: int := 1240

  /** The font the caption is drawn with: the chosen TrueType file at the chosen
      size, or Pillow's built-in font when loading that file raised. */
  datatype Font = TrueType(path: string, size: nat) | DefaultFont

  /** The font of a caption: the Devanagari font for Hindi text and the Latin
      font otherwise, always at size 25; the built-in font when loading fails. */
  function ChooseFont(text: string, fontEn: string, fontHi: string, loads: bool): (f: Font)
    ensures loads ==> f.TrueType? && f.size == FontSize
    ensures loads && IsHindi(text) ==> f.path == fontHi
    ensures loads && !IsHindi(text) ==> f.path == fontEn
    ensures !loads ==> f.DefaultFont?
  {
    if !loads then DefaultFont
    else if IsHindi(text) then TrueType(fontHi, FontSize)
    else TrueType(fontEn, FontSize)
  }

  /** The backing rectangle of the caption, in pixels. */
  datatype Box = Box(x1: int, y1: int, x2: int, y2: int)

  /** The caption box for `lineCount` wrapped lines on a canvas `height` pixels
      high: a 45-pixel band per line plus 30 pixels of padding above and below,
      ending 50 pixels above the bottom edge, and spanning x from 40 to 1240
      whatever the canvas width. Its top is on the canvas only while the lines
      and margins fit in the height. */
  function CaptionBox(lineCount: nat, height: int): (b: Box)
    ensures b.y2 - b.y1 == LineHeight * lineCount + 2 * PaddingVertical
    ensures height - b.y2 == BottomMargin
    ensures b.x1 == BoxLeft && b.x2 == BoxRight
    ensures b.y1 >= 0 <==> LineHeight * lineCount + 2 * PaddingVertical + BottomMargin <= height
  {
    var boxHeight := lineCount * LineHeight + PaddingVertical * 2;
    Box(BoxLeft, height - boxHeight - BottomMargin, BoxRight, height - BottomMargin)
  }

  /** One `draw.text` call: the line and the y coordinate of its top. */
  datatype TextDraw = TextDraw(line: string, y: int)

  /** The drawing steps of `create_text_image` for the caption `text`, whose
      wrapped lines are `lines`: the font, the box, and one text draw per line,
      in order, line i at 30 + 45*i pixels below the top of the box, so each
      line's band lies inside the box's padding; after the last line the pen
      stands 30 pixels above the bottom of the box. */
  method CreateTextImage(text: string, lines: seq<string>, fontEn: string, fontHi: string,
                         fontLoads: bool, height: int)
    returns (font: Font, box: Box, draws: seq<TextDraw>, finalY: int)
    ensures font == ChooseFont(text, fontEn, fontHi, fontLoads)
    ensures box == CaptionBox(|lines|, height)
    ensures |draws| == |lines|
    ensures forall i :: 0 <= i < |draws| ==>
      draws[i].line == lines[i] && draws[i].y == box.y1 + PaddingVertical + LineHeight * i
    ensures forall i :: 0 <= i < |draws| ==>
      box.y1 + PaddingVertical <= draws[i].y && draws[i].y + LineHeight <= box.y2 - PaddingVertical
    ensures finalY == box.y2 - PaddingVertical
  {
    font := ChooseFont(text, fontEn, fontHi, fontLoads);
    var lineHeight := FontSize + LineSpacing;
    var textBlockHeight := |lines| * lineHeight;
    var boxHeight := textBlockHeight + PaddingVertical * 2;
    box := Box(BoxLeft, height - boxHeight - BottomMargin, BoxRight, height - BottomMargin);
    var currentY := box.y1 + PaddingVertical;
    draws := [];
    for i := 0 to |lines|
      invariant |draws| == i
      invariant currentY == box.y1 + PaddingVertical + LineHeight * i
      invariant forall j :: 0 <= j < i ==>
        draws[j].line == lines[j] && draws[j].y == box.y1 + PaddingVertical + LineHeight * j
    {
      draws := draws + [TextDraw(lines[i], currentY)];
      currentY := currentY + lineHeight;
    }
    finalY := currentY;
  }

  // ---------------------------------------------------------------------
  // Clip selection

  /** How a scene's picture is turned into a clip: a video file is looped or
      cut to the narration, a still image is cropped and slowly zoomed. */
  datatype Visual = Footage(path: string) | Still(path: string)

  /** One scene clip: its picture, its caption text and its narration file. */
  datatype Clip = Clip(visual: Visual, caption: string, voice: string)

  /** A file ending in ".mp4" is footage; every other file is a still image. */
  function VisualFor(mediaPath: string): (v: Visual)
    ensures v.path == mediaPath
    ensures v.Footage? <==> EndsWith(mediaPath, ".mp4")
  {
    if EndsWith(mediaPath, ".mp4") then Footage(mediaPath) else Still(mediaPath)
  }

  /** The number of scenes `zip` walks: the length of the shortest list. */
  function ZipLength(media: seq<Option<string>>, audio: seq<Option<string>>, scenes: seq<Scene>): (n: nat)
    ensures n <= |media| && n <= |audio| && n <= |scenes|
    ensures n == |media| || n == |audio| || n == |scenes|
  {
    if |media| <= |audio| && |media| <= |scenes| then |media|
    else if |audio| <= |scenes| then |audio|
    else |scenes|
  }

  /** A scene is used when it has a picture that exists on disk. */
  predicate HasPicture(media: Option<string>, fileExists: string -> bool) {
    media.Some? && fileExists(media.value)
  }

  /** Loading the narration succeeds only for a path that exists and that the
      media decoder can read (`readable`); `None`, a missing file or an
      unreadable one makes `AudioFileClip` raise, and nothing in
      `create_video` catches it. */
  predicate VoiceLoads(audio: Option<string>, fileExists: string -> bool, readable: string -> bool) {
    audio.Some? && fileExists(audio.value) && readable(audio.value)
  }

  /** The clips built from the first `n` scenes, or the position of the first
      used scene whose narration could not be loaded. */
  datatype Assembly = Assembled(clips: seq<Clip>) | VoiceRaised(at: nat)

  /** The clip loop of `create_video` over the first `n` zipped scenes. */
  function AssembleClips(media: seq<Option<string>>, audio: seq<Option<string>>, scenes: seq<Scene>,
                         fileExists: string -> bool, readable: string -> bool, n: nat): (r: Assembly)
    requires n <= ZipLength(media, audio, scenes)
    ensures r.Assembled? ==> |r.clips| <= n
    ensures r.VoiceRaised? ==> r.at < n && HasPicture(media[r.at], fileExists) && !VoiceLoads(audio[r.at], fileExists, readable)
  {
    if n == 0 then Assembled([])
    else
      var i := n - 1;
      match AssembleClips(media, audio, scenes, fileExists, readable, i)
      case VoiceRaised(at) => VoiceRaised(at)
      case Assembled(clips) =>
        if !HasPicture(media[i], fileExists) then Assembled(clips)
        else if !VoiceLoads(audio[i], fileExists, readable) then VoiceRaised(i)
        else Assembled(clips + [Clip(VisualFor(media[i].value), scenes[i].textOverlay, audio[i].value)])
  }

  /** The positions among the first `n` scenes that have a picture, in order. */
  function UsedScenes(media: seq<Option<string>>, fileExists: string -> bool, n: nat): (r: seq<nat>)
    requires n <= |media|
    ensures forall j :: 0 <= j < |r| ==> r[j] < n && HasPicture(media[r[j]], fileExists)
    ensures forall j, k :: 0 <= j < k < |r| ==> r[j] < r[k]
    ensures forall i :: 0 <= i < n && HasPicture(media[i], fileExists) ==> i in r
  {
    if n == 0 then []
    else UsedScenes(media, fileExists, n - 1) + (if HasPicture(media[n - 1], fileExists) then [n - 1] else [])
  }

  /** When no narration fails to load, the clips are exactly one per scene
      with an existing picture, in scene order, built from that scene's
      picture, caption and narration. */
  lemma {:induction false} AssembledAreUsedScenes(media: seq<Option<string>>, audio: seq<Option<string>>,
                                                  scenes: seq<Scene>, fileExists: string -> bool, readable: string -> bool, n: nat)
    requires n <= ZipLength(media, audio, scenes)
    requires AssembleClips(media, audio, scenes, fileExists, readable, n).Assembled?
    ensures var clips := AssembleClips(media, audio, scenes, fileExists, readable, n).clips;
      var used := UsedScenes(media, fileExists, n);
      |clips| == |used| &&
      forall j :: 0 <= j < |clips| ==>
        VoiceLoads(audio[used[j]], fileExists, readable) &&
        clips[j] == Clip(VisualFor(media[used[j]].value), scenes[used[j]].textOverlay, audio[used[j]].value)
  {
    if n > 0 {
      AssembledAreUsedScenes(media, audio, scenes, fileExists, readable, n - 1);
    }
  }

  /** The narration of the first used scene whose narration cannot be loaded
      is what raises; before it every used scene loaded. */
  lemma {:induction false} RaisedAtFirstBadVoice(media: seq<Option<string>>, audio: seq<Option<string>>,
                                                 scenes: seq<Scene>, fileExists: string -> bool, readable: string -> bool, n: nat)
    requires n <= ZipLength(media, audio, scenes)
    ensures var r := AssembleClips(media, audio, scenes, fileExists, readable, n);
      (r.VoiceRaised? ==> forall i :: 0 <= i < r.at && HasPicture(media[i], fileExists) ==> VoiceLoads(audio[i], fileExists, readable)) &&
      (r.Assembled? ==> forall i :: 0 <= i < n && HasPicture(media[i], fileExists) ==> VoiceLoads(audio[i], fileExists, readable))
  {
    if n > 0 {
      RaisedAtFirstBadVoice(media, audio, scenes, fileExists, readable, n - 1);
    }
  }

  /** What `create_video` does: raise while loading a narration, return None
      because no scene had a picture or because writing the file raised, or
      write the video (with background music when the music file exists and
      mixing it went through) and return its path. */
  datatype VideoOutcome =
    | VoiceLoadRaised(at: nat)
    | NoClips
    | WriteFailed(clips: seq<Clip>)
    | Written(path: string, clips: seq<Clip>, withMusic: bool)

  /** The value `create_video` returns, when it returns. */
  function Returned(o: VideoOutcome): (r: Option<string>)
    requires !o.VoiceLoadRaised?
    ensures r.Some? <==> o.Written?
    ensures o.Written? ==> r == Some(o.path)
  {
    if o.Written? then Some(o.path) else None
  }

  /** `create_video` for an output path already made absolute: assemble the
      clips over the zipped scenes, stop with None when there are none, mix in
      the music only when its file exists and mixing raised nothing, and
      report the path only when writing went through. */
  method CreateVideo(media: seq<Option<string>>, audio: seq<Option<string>>, scenes: seq<Scene>,
                     fileExists: string -> bool, readable: string -> bool, musicPath: string, musicMixes: bool,
                     writeSucceeds: bool, outputPath: string)
    returns (outcome: VideoOutcome)
    ensures var a := AssembleClips(media, audio, scenes, fileExists, readable, ZipLength(media, audio, scenes));
      match a
      case VoiceRaised(at) => outcome == VoiceLoadRaised(at)
      case Assembled(clips) =>
        if clips == [] then outcome == NoClips
        else if writeSucceeds then outcome == Written(outputPath, clips, fileExists(musicPath) && musicMixes)
        else outcome == WriteFailed(clips)
    ensures !outcome.VoiceLoadRaised? ==>
      (Returned(outcome) == Some(outputPath) <==> writeSucceeds && !outcome.NoClips?)
  {
    var n := ZipLength(media, audio, scenes);
    var clips: seq<Clip> := [];
    var i := 0;
    while i < n
      invariant 0 <= i <= n
      invariant AssembleClips(media, audio, scenes, fileExists, readable, i) == Assembled(clips)
    {
      if media[i].None? || !fileExists(media[i].value) {
        i := i + 1;
        continue;
      }
      if !VoiceLoads(audio[i], fileExists, readable) {
        assert AssembleClips(media, audio, scenes, fileExists, readable, i + 1) == VoiceRaised(i);
        SettledRaise(media, audio, scenes, fileExists, readable, i + 1, n);
        return VoiceLoadRaised(i);
      }
      var visual := VisualFor(media[i].value);
      clips := clips + [Clip(visual, scenes[i].textOverlay, audio[i].value)];
      i := i + 1;
    }
    if clips == [] {
      return NoClips;
    }
    var withMusic := fileExists(musicPath) && musicMixes;
    if writeSucceeds {
      outcome := Written(outputPath, clips, withMusic);
    } else {
      outcome := WriteFailed(clips);
    }
  }

  /** A raise stops the loop: scenes after it do not change the outcome. */
  lemma {:induction false} SettledRaise(media: seq<Option<string>>, audio: seq<Option<string>>, scenes: seq<Scene>,
                                       fileExists: string -> bool, readable: string -> bool, m: nat, n: nat)
    requires m <= n <= ZipLength(media, audio, scenes)
    requires AssembleClips(media, audio, scenes, fileExists, readable, m).VoiceRaised?
    ensures AssembleClips(media, audio, scenes, fileExists, readable, n) == AssembleClips(media, audio, scenes, fileExists, readable, m)
    decreases n - m
  {
    if m < n {
      SettledRaise(media, audio, scenes, fileExists, readable, m + 1, n);
    }
  }
}
