/** The narration stage: pick one voice from the language and gender the user
    chose, then synthesize each scene's narration to its own file, recording
    the file's path, or None when synthesis raised. The speech service is
    outside the model: each synthesis request is answered by an oracle that
    says whether it saved the file. */
module AudioGenerator {
  import opened Common

  /** The voice used when the language or the gender is not in the table. */
  const FallbackVoice := "en-US-BrianNeural"

  /** The voices by language, then by gender. */
  const VoiceMap: map<string, map<string, string>> := map[
    "English" := map["Male" := "en-US-BrianNeural", "Female" := "en-US-AriaNeural"],
    "Hindi" := map["Male" := "hi-IN-MadhurNeural", "Female" := "hi-IN-SwaraNeural"]
  ]

  /** Every voice the stage can speak with. */
  const KnownVoices: set<string> :=
    {"en-US-BrianNeural", "en-US-AriaNeural", "hi-IN-MadhurNeural", "hi-IN-SwaraNeural"}

  /** The table entry for the language and gender when both keys exist, and
      the fallback voice otherwise; either way one of the four known voices. */
  function SelectVoice(language: string, gender: string): (v: string)
    ensures language in VoiceMap && gender in VoiceMap[language] ==> v == VoiceMap[language][gender]
    ensures !(language in VoiceMap && gender in VoiceMap[language]) ==> v == FallbackVoice
    ensures v in KnownVoices
  {
    if language in VoiceMap && gender in VoiceMap[language] then VoiceMap[language][gender]
    else FallbackVoice
  }

  /** Only the two table languages get a Hindi voice: any other language,
      whatever the gender, is spoken in English. */
  lemma HindiVoiceOnlyForHindi(language: string, gender: string)
    ensures SelectVoice(language, gender) in {"hi-IN-MadhurNeural", "hi-IN-SwaraNeural"} ==> language == "Hindi"
  {
    if language in VoiceMap && gender in VoiceMap[language] {
      assert language == "English" || language == "Hindi";
    }
  }

  /** The file scene `index` is narrated into. */
  function VoicePath(folder: string, index: nat): string {
    IndexedPath(folder, "voice_", index, ".mp3")
  }

  /** Scenes never share a narration file. */
  lemma VoicePathsDistinct(folder: string, i: nat, j: nat)
    requires i != j
    ensures VoicePath(folder, i) != VoicePath(folder, j)
  {
    if VoicePath(folder, i) == VoicePath(folder, j) {
      IndexedPathInjective(folder, "voice_", ".mp3", i, j);
    }
  }

  /** One call to the speech service: the text, the file to save to, the voice. */
  datatype SynthRequest = SynthRequest(text: string, filename: string, voice: string)

  /** `generate_voiceover`: one entry per scene, in scene order; entry i is the
      path of scene i's file when synthesizing its narration with the selected
      voice went through and None when it raised, and a failure does not stop
      the later scenes. Every request uses the same voice. */
  method GenerateVoiceover(scenes: seq<Scene>, language: string, gender: string, folder: string,
                           synth: SynthRequest -> bool)
    returns (audioPaths: seq<Option<string>>, requests: seq<SynthRequest>)
    ensures |audioPaths| == |scenes| && |requests| == |scenes|
    ensures forall i :: 0 <= i < |scenes| ==>
      requests[i] == SynthRequest(scenes[i].narration, VoicePath(folder, i), SelectVoice(language, gender))
    ensures forall i :: 0 <= i < |scenes| ==>
      audioPaths[i] == if synth(requests[i]) then Some(VoicePath(folder, i)) else None
    ensures forall i, j :: 0 <= i < j < |requests| ==> requests[i].voice == requests[j].voice
  {
    var voice := SelectVoice(language, gender);
    audioPaths := [];
    requests := [];
    for index := 0 to |scenes|
      invariant |audioPaths| == index && |requests| == index
      invariant forall i :: 0 <= i < index ==>
        requests[i] == SynthRequest(scenes[i].narration, VoicePath(folder, i), voice)
      invariant forall i :: 0 <= i < index ==>
        audioPaths[i] == if synth(requests[i]) then Some(requests[i].filename) else None
    {
      var text := scenes[index].narration;
      var filename := VoicePath(folder, index);
      var request := SynthRequest(text, filename, voice);
      requests := requests + [request];
      if synth(request) {
        audioPaths := audioPaths + [Some(filename)];
      } else {
        audioPaths := audioPaths + [None];
      }
    }
  }

  /** The files listed by one run are pairwise distinct, so no scene's
      narration overwrites another's. */
  lemma ListedFilesDistinct(scenes: seq<Scene>, language: string, gender: string, folder: string,
                            synth: SynthRequest -> bool, audioPaths: seq<Option<string>>, i: nat, j: nat)
    requires |audioPaths| == |scenes|
    requires forall k :: 0 <= k < |scenes| ==>
      audioPaths[k] == if synth(SynthRequest(scenes[k].narration, VoicePath(folder, k), SelectVoice(language, gender)))
                       then Some(VoicePath(folder, k)) else None
    requires i < j < |audioPaths| && audioPaths[i].Some? && audioPaths[j].Some?
    ensures audioPaths[i].value != audioPaths[j].value
  {
    VoicePathsDistinct(folder, i, j);
  }
}
