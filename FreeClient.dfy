/**
 The client the HTTP handlers call: translation and detection adapters over
 external engines, the constant voice list, and speech synthesis that tries
 the online neural voice first and falls back, once, to the offline engine.
 */
module FreeClient {
  import opened Common
  import opened VoiceCatalog
  import opened OnlineTts
  import opened OfflineTts

  // ---------------------------------------------------------------------------
  // Speech synthesis

  /** `synthesize_speech`. Empty text gives an empty buffer at once. Otherwise
      the online attempt speaks the text with the voice selected for
      `languageCode`; if anything in it raises, the single offline attempt is
      final. `voiceName` and `audioFormat` are accepted and never read. */
  method SynthesizeSpeech(
    text: string, languageCode: string, voiceName: Option<string>, audioFormat: string,
    service: Service, engine: Engine, token: string, fs: Files, access: FileAccess)
    returns (audio: bytes, fs': Files)
    ensures text == [] ==> audio == [] && fs' == fs
    ensures text != [] && service(text, SelectedVoice(languageCode)).end.Finished? ==>
      audio == AudioOf(service(text, SelectedVoice(languageCode)).chunks) && fs' == fs
    ensures text != [] && service(text, SelectedVoice(languageCode)).end.Broken? ==>
      (audio, fs') == OfflineOutcome(fs, TempFileName(token), engine(text), access)
  {
    if text == [] {
      return [], fs;
    }
    var voice := SelectVoice(VOICE_TABLE, languageCode);
    var online := RunEdgeTts(service, text, voice);
    if online.Returned? {
      return online.value, fs;
    }
    audio, fs' := RunOfflineTts(engine, text, token, fs, access);
  }

  // ---------------------------------------------------------------------------
  // Translation

  /** The dict `translate_text` returns. */
  datatype Translation = Translation(translatedText: string, detectedSourceLanguage: string)

  /** The external translator, `GoogleTranslator(source='auto', target).translate(text)`. */
  type Translator = (string, string) -> Attempt<string>

  /** The external single-language detector, `langdetect.detect(text)`. */
  type Detector = string -> Attempt<string>

  const TRANSLATION_FAILED: string := "Translation failed: "

  /** `translate_text`: it raises exactly when the text is non-empty and the
      translator raises, with the prefixed message; a detector that raises
      only turns the source language into "und". */
  function TranslateText(text: string, target: string, translate: Translator, detect: Detector): (r: Attempt<Translation>)
    ensures r.Raised? <==> text != [] && translate(text, target).Raised?
    ensures r.Raised? ==> r.message == TRANSLATION_FAILED + translate(text, target).message
    ensures r.Returned? && text != [] ==> r.value.translatedText == translate(text, target).value
    ensures r.Returned? ==>
      r.value.detectedSourceLanguage == (if text != [] && detect(text).Returned? then detect(text).value else "und")
    ensures text == [] ==> r == Returned(Translation("", "und"))
  {
    if text == [] then Returned(Translation("", "und"))
    else match translate(text, target)
      case Raised(e) => Raised(TRANSLATION_FAILED + e)
      case Returned(translated) =>
        var detected := match detect(text) case Returned(lang) => lang case Raised(_) => "und";
        Returned(Translation(translated, detected))
  }

  // ---------------------------------------------------------------------------
  // Detection

  /** One result of `langdetect.detect_langs`: a language and its probability. */
  datatype LangProb = LangProb(lang: string, prob: real)

  /** One record of `detect_language`'s result. */
  datatype Detection = Detection(language: string, confidence: real)

  type LangsDetector = string -> Attempt<seq<LangProb>>

  /** `detect_language`: one record per engine result, in the engine's order;
      empty text or an engine that raises gives no records. */
  method DetectLanguage(text: string, detectLangs: LangsDetector) returns (records: seq<Detection>)
    ensures text == [] || detectLangs(text).Raised? ==> records == []
    ensures text != [] && detectLangs(text).Returned? ==>
      |records| == |detectLangs(text).value| &&
      forall i :: 0 <= i < |records| ==>
        records[i] == Detection(detectLangs(text).value[i].lang, detectLangs(text).value[i].prob)
  {
    if text == [] {
      return [];
    }
    records := [];
    var found := detectLangs(text);
    if found.Raised? {
      return;
    }
    var results := found.value;
    for i := 0 to |results|
      invariant |records| == i
      invariant forall k :: 0 <= k < i ==> records[k] == Detection(results[k].lang, results[k].prob)
    {
      records := records + [Detection(results[i].lang, results[i].prob)];
    }
  }

  // ---------------------------------------------------------------------------
  // Voice list

  /** `list_voices`: the voice list is a stub; the language is not read. */
  function ListVoices(languageCode: Option<string>): Json {
    JObj(map["voices" := JArr([])])
  }
}
