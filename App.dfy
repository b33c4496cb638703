/**
 The HTTP handlers, each a function from a parsed JSON body (absent when the
 body is not valid JSON) and the outcome of the client call to a response.
 A client call is an oracle over the values the handler passes it, so a
 property that holds whatever the oracle returns holds for every client.
 */
module App {
  import opened Common
  import FreeClient

  /** A response: a JSON payload with a status, or a file attachment. */
  datatype Response =
    | JsonReply(status: int, payload: Json)
    | FileReply(status: int, data: bytes, mimetype: string, downloadName: string)

  function ErrorReply(status: int, message: string): Response {
    JsonReply(status, JObj(map["error" := JStr(message)]))
  }

  /** The payload of an exception caught by the translate and tts handlers. */
  function InternalError(details: string): Response {
    JsonReply(500, JObj(map["error" := JStr("Internal Server Error"), "details" := JStr(details)]))
  }

  const INVALID_BODY: Response := ErrorReply(400, "Invalid JSON body")

  /** `if not data`: no valid JSON, or an empty object. */
  predicate BodyPresent(body: Option<map<string, Json>>) {
    body.Some? && body.value != map[]
  }

  // ---------------------------------------------------------------------------
  // Handlers

  /** `health_check`. */
  function HealthCheck(): Response {
    JsonReply(200, JObj(map["status" := JStr("ok")]))
  }

  /** `translate_endpoint`; `translate` is `gcloud.translate_text`. */
  function TranslateEndpoint(body: Option<map<string, Json>>, translate: (Json, Json) -> Attempt<Json>): Response {
    if !BodyPresent(body) then INVALID_BODY
    else
      var text := Get(body.value, "text");
      var target := Get(body.value, "target");
      if !Truthy(text) then ErrorReply(400, "Missing 'text' parameter")
      else if !Truthy(target) then ErrorReply(400, "Missing 'target' parameter")
      else match translate(text, target)
        case Returned(result) => JsonReply(200, result)
        case Raised(e) => InternalError(e)
  }

  function DetectionJson(d: FreeClient.Detection): Json {
    JObj(map["language" := JStr(d.language), "confidence" := JFloat(d.confidence)])
  }

  const DETECTION_FAILED: string := "Failed to detect language: "

  /** `detect_endpoint`; `detect` is `gcloud.detect_language`. */
  function DetectEndpoint(body: Option<map<string, Json>>, detect: Json -> Attempt<seq<FreeClient.Detection>>): Response {
    if !BodyPresent(body) then INVALID_BODY
    else
      var text := Get(body.value, "text");
      if !Truthy(text) then ErrorReply(400, "Missing 'text' parameter")
      else match detect(text)
        case Raised(e) => ErrorReply(500, DETECTION_FAILED + e)
        case Returned(detections) =>
          if detections != [] then
            JsonReply(200, JObj(map[
              "language" := JStr(detections[0].language),
              "confidence" := JFloat(detections[0].confidence),
              "all_detections" := JArr(seq(|detections|, i requires 0 <= i < |detections| => DetectionJson(detections[i])))]))
          else
            JsonReply(200, JObj(map["language" := JStr("und"), "confidence" := JFloat(0.0)]))
  }

  function LowerChar(c: char): char {
    if 'A' <= c <= 'Z' then (c as int + 32) as char else c
  }

  /** Python's `str.lower()` on ASCII letters. */
  function LowerAscii(s: string): (r: string)
    ensures |r| == |s|
    ensures forall i :: 0 <= i < |s| ==> r[i] == LowerChar(s[i])
  {
    if s == [] then [] else [LowerChar(s[0])] + LowerAscii(s[1..])
  }

  /** The name Python gives the type of a JSON value. */
  function PythonTypeName(v: Json): string {
    match v
    case JNull => "NoneType"
    case JBool(_) => "bool"
    case JInt(_) => "int"
    case JFloat(_) => "float"
    case JStr(_) => "str"
    case JArr(_) => "list"
    case JObj(_) => "dict"
  }

  /** The attachment for synthesized `audio` requested in format `fmt`:
      "linear16" in any case is a WAV file, everything else an MP3 file. */
  function AudioReply(audio: bytes, fmt: string): Response {
    if LowerAscii(fmt) == "linear16" then FileReply(200, audio, "audio/wav", "output.wav")
    else FileReply(200, audio, "audio/mpeg", "output.mp3")
  }

  /** `tts_endpoint`; `synthesize` is `gcloud.synthesize_speech` called with
      the text, language, voice and format taken from the body. */
  function TtsEndpoint(body: Option<map<string, Json>>, synthesize: (Json, Json, Json, Json) -> Attempt<bytes>): Response {
    if !BodyPresent(body) then INVALID_BODY
    else
      var text := Get(body.value, "text");
      var lang := GetOr(body.value, "lang", JStr("en-US"));
      var voice := Get(body.value, "voice");
      var fmt := GetOr(body.value, "format", JStr("mp3"));
      if !Truthy(text) then ErrorReply(400, "Missing 'text' parameter")
      else match synthesize(text, lang, voice, fmt)
        case Raised(e) => InternalError(e)
        case Returned(audio) =>
          match fmt
          case JStr(f) => AudioReply(audio, f)
          case _ => InternalError("'" + PythonTypeName(fmt) + "' object has no attribute 'lower'")
  }

  /** `voices_endpoint`; `listVoices` is `gcloud.list_voices`. */
  function VoicesEndpoint(lang: Option<string>, listVoices: Option<string> -> Attempt<Json>): Response {
    match listVoices(lang)
    case Returned(voices) => JsonReply(200, voices)
    case Raised(e) => ErrorReply(500, e)
  }

  // ---------------------------------------------------------------------------
  // Properties

  /** No valid JSON, or an empty object, is a 400 on /translate, whatever
      the client would have done. */
  lemma TranslateRejectsInvalidBody(body: Option<map<string, Json>>, translate: (Json, Json) -> Attempt<Json>)
    requires !BodyPresent(body)
    ensures TranslateEndpoint(body, translate) == INVALID_BODY
  {
  }

  /** The same on /detect-language. */
  lemma DetectRejectsInvalidBody(body: Option<map<string, Json>>, detect: Json -> Attempt<seq<FreeClient.Detection>>)
    requires !BodyPresent(body)
    ensures DetectEndpoint(body, detect) == INVALID_BODY
  {
  }

  /** The same on /tts. */
  lemma TtsRejectsInvalidBody(body: Option<map<string, Json>>, synthesize: (Json, Json, Json, Json) -> Attempt<bytes>)
    requires !BodyPresent(body)
    ensures TtsEndpoint(body, synthesize) == INVALID_BODY
  {
  }

  /** /translate checks `text` before `target`, calls the client only when
      both are truthy, and passes its result through unchanged. */
  lemma TranslateValidation(data: map<string, Json>, translate: (Json, Json) -> Attempt<Json>, other: (Json, Json) -> Attempt<Json>)
    requires data != map[]
    ensures var text := Get(data, "text"); var target := Get(data, "target");
      && (!Truthy(text) ==> TranslateEndpoint(Some(data), translate) == ErrorReply(400, "Missing 'text' parameter"))
      && (Truthy(text) && !Truthy(target) ==> TranslateEndpoint(Some(data), translate) == ErrorReply(400, "Missing 'target' parameter"))
      && (!(Truthy(text) && Truthy(target)) ==> TranslateEndpoint(Some(data), translate) == TranslateEndpoint(Some(data), other))
      && (Truthy(text) && Truthy(target) && translate(text, target).Returned? ==>
            TranslateEndpoint(Some(data), translate) == JsonReply(200, translate(text, target).value))
      && (Truthy(text) && Truthy(target) && translate(text, target).Raised? ==>
            TranslateEndpoint(Some(data), translate) == InternalError(translate(text, target).message))
  {
  }

  /** The JSON object `translate_text`'s dict becomes. */
  function TranslationJson(t: FreeClient.Translation): Json {
    JObj(map["translatedText" := JStr(t.translatedText), "detectedSourceLanguage" := JStr(t.detectedSourceLanguage)])
  }

  /** With the client's own `translate_text` behind it, a translator failure
      reaches the caller as a 500 whose details carry the prefixed message,
      and a detector failure still gives a 200 with language "und". */
  lemma TranslateWithClient(
    data: map<string, Json>, t: string, g: string, translate: (Json, Json) -> Attempt<Json>,
    translator: FreeClient.Translator, detector: FreeClient.Detector)
    requires Get(data, "text") == JStr(t) && t != []
    requires Get(data, "target") == JStr(g) && g != []
    requires translate(JStr(t), JStr(g)) ==
      match FreeClient.TranslateText(t, g, translator, detector)
      case Returned(tr) => Returned(TranslationJson(tr))
      case Raised(e) => Raised(e)
    ensures translator(t, g).Raised? ==>
      TranslateEndpoint(Some(data), translate) == InternalError(FreeClient.TRANSLATION_FAILED + translator(t, g).message)
    ensures translator(t, g).Returned? && detector(t).Raised? ==>
      TranslateEndpoint(Some(data), translate) ==
        JsonReply(200, TranslationJson(FreeClient.Translation(translator(t, g).value, "und")))
  {
  }

  /** /detect-language puts the first detection at the top level beside the
      full list, and answers "und" with confidence 0.0 when there is none;
      a raising client is a 500 with the detection prefix. */
  lemma DetectShaping(data: map<string, Json>, detect: Json -> Attempt<seq<FreeClient.Detection>>)
    requires Truthy(Get(data, "text"))
    ensures var r := DetectEndpoint(Some(data), detect); var found := detect(Get(data, "text"));
      && (found.Returned? && found.value != [] ==>
            r.JsonReply? && r.status == 200 && r.payload.JObj? &&
            r.payload.fields["language"] == JStr(found.value[0].language) &&
            r.payload.fields["confidence"] == JFloat(found.value[0].confidence) &&
            r.payload.fields["all_detections"].JArr? &&
            |r.payload.fields["all_detections"].items| == |found.value| &&
            forall i :: 0 <= i < |found.value| ==>
              r.payload.fields["all_detections"].items[i] == DetectionJson(found.value[i]))
      && (found.Returned? && found.value == [] ==>
            r == JsonReply(200, JObj(map["language" := JStr("und"), "confidence" := JFloat(0.0)])))
      && (found.Raised? ==> r == ErrorReply(500, DETECTION_FAILED + found.message))
  {
  }

  /** A falsy `text` on /detect-language is a 400 and detection is never
      consulted. */
  lemma DetectMissingText(data: map<string, Json>, detect: Json -> Attempt<seq<FreeClient.Detection>>, other: Json -> Attempt<seq<FreeClient.Detection>>)
    requires data != map[] && !Truthy(Get(data, "text"))
    ensures DetectEndpoint(Some(data), detect) == ErrorReply(400, "Missing 'text' parameter")
    ensures DetectEndpoint(Some(data), detect) == DetectEndpoint(Some(data), other)
  {
  }

  /** A falsy `text` on /tts is a 400 and synthesis is never consulted. */
  lemma TtsMissingText(data: map<string, Json>, synthesize: (Json, Json, Json, Json) -> Attempt<bytes>, other: (Json, Json, Json, Json) -> Attempt<bytes>)
    requires data != map[] && !Truthy(Get(data, "text"))
    ensures TtsEndpoint(Some(data), synthesize) == ErrorReply(400, "Missing 'text' parameter")
    ensures TtsEndpoint(Some(data), synthesize) == TtsEndpoint(Some(data), other)
  {
  }

  /** Without `lang` and `format`, synthesis is asked for "en-US" and "mp3",
      and its bytes, even empty ones, come back as output.mp3. */
  lemma TtsDefaults(data: map<string, Json>, synthesize: (Json, Json, Json, Json) -> Attempt<bytes>, audio: bytes)
    requires Truthy(Get(data, "text")) && "lang" !in data && "format" !in data
    requires synthesize(Get(data, "text"), JStr("en-US"), Get(data, "voice"), JStr("mp3")) == Returned(audio)
    ensures TtsEndpoint(Some(data), synthesize) == FileReply(200, audio, "audio/mpeg", "output.mp3")
  {
  }

  /** A `format` that is not a string fails at `.lower()`, after synthesis,
      and the AttributeError becomes a 500. */
  lemma TtsNonStringFormat(data: map<string, Json>, synthesize: (Json, Json, Json, Json) -> Attempt<bytes>)
    requires Truthy(Get(data, "text")) && "format" in data && !data["format"].JStr?
    requires synthesize(Get(data, "text"), GetOr(data, "lang", JStr("en-US")), Get(data, "voice"), data["format"]).Returned?
    ensures TtsEndpoint(Some(data), synthesize).status == 500
  {
  }

  /** The synthesized bytes are sent unmodified; the mimetype and file name
      depend only on the requested format, whichever engine made the bytes. */
  lemma TtsAttachment(data: map<string, Json>, synthesize: (Json, Json, Json, Json) -> Attempt<bytes>, f: string)
    requires Truthy(Get(data, "text")) && GetOr(data, "format", JStr("mp3")) == JStr(f)
    ensures var r := TtsEndpoint(Some(data), synthesize);
      var found := synthesize(Get(data, "text"), GetOr(data, "lang", JStr("en-US")), Get(data, "voice"), JStr(f));
      && (found.Returned? ==> r.FileReply? && r.status == 200 && r.data == found.value)
      && (found.Returned? ==> (r.mimetype == "audio/wav" <==> LowerAscii(f) == "linear16"))
      && (found.Returned? ==> r.downloadName == (if LowerAscii(f) == "linear16" then "output.wav" else "output.mp3"))
      && (found.Returned? && LowerAscii(f) != "linear16" ==> r.mimetype == "audio/mpeg")
      && (found.Raised? ==> r == InternalError(found.message))
  {
  }

  /** The format test ignores case: any spelling of "linear16" is a WAV file. */
  lemma Linear16IgnoresCase(audio: bytes, f: string)
    requires |f| == 8 && f[0] in "lL" && f[1] in "iI" && f[2] in "nN" && f[3] in "eE" && f[4] in "aA" && f[5] in "rR" && f[6] == '1' && f[7] == '6'
    ensures AudioReply(audio, f) == FileReply(200, audio, "audio/wav", "output.wav")
  {
  }

  /** "mp3", the default, is an MP3 file. */
  lemma Mp3IsMpeg(audio: bytes)
    ensures AudioReply(audio, "mp3") == FileReply(200, audio, "audio/mpeg", "output.mp3")
  {
  }

  /** /health is always 200 {"status": "ok"}. */
  lemma HealthIsOk()
    ensures HealthCheck().status == 200 && HealthCheck().payload == JObj(map["status" := JStr("ok")])
  {
  }

  /** With the client's stub behind it, /voices is always 200 {"voices": []},
      whatever language is asked for. */
  lemma VoicesWithClientAreEmpty(lang: Option<string>)
    ensures VoicesEndpoint(lang, l => Returned(FreeClient.ListVoices(l))) == JsonReply(200, JObj(map["voices" := JArr([])]))
  {
  }

  /** A raising client on /voices is a 500 carrying its message. */
  lemma VoicesError(lang: Option<string>, listVoices: Option<string> -> Attempt<Json>)
    requires listVoices(lang).Raised?
    ensures VoicesEndpoint(lang, listVoices) == ErrorReply(500, listVoices(lang).message)
  {
  }
}
