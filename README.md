# Translate & TTS backend, modelled in Dafny

This project models the backend of a small translation and text-to-speech
web service. There are two parts:

- the `FreeClient` wrapper (`backend/gcloud_client.py`). It picks a neural
  voice for a language code. It synthesizes speech online and falls back once
  to an offline engine. It also adapts the translation and detection engines
  and returns a stub voice list.
- the Flask handlers (`backend/app.py`). They validate the JSON body, apply
  defaults, shape the client's answer, and turn exceptions into 500s.

Every external engine is an oracle passed as a parameter:

- the edge-tts service is a function from (text, voice) to a chunk stream;
- the pyttsx3 engine is a function from text to what it renders;
- the translator and the detectors are functions that return or raise.

The filesystem is a map from file name to bytes. The uuid is a token given as
a parameter. A raised exception is `Attempt.Raised(message)`, where `message`
is `str(e)`.

Modules, one per component:

- `Common`: bytes, `Option`, `Attempt`, JSON values with Python truthiness,
  and `dict.get`.
- `VoiceCatalog`: the 14-entry voice table in declaration order. It has the
  selection rule as a specification function (`SelectedVoice`) and the
  source's loop with `break` (`SelectVoice`), which is proved equal to it.
- `OnlineTts`: the chunk stream and the in-order concatenation of audio
  chunks (`AudioOf`). `RunEdgeTts` is the buffer-appending loop.
- `OfflineTts`: the render, exists, read, remove sequence (`RunOfflineTts`)
  over the filesystem map. It is specified by `OfflineOutcome`.
- `FreeClient`: `SynthesizeSpeech`, `TranslateText`, `DetectLanguage` (a
  loop) and `ListVoices`. `ListVoices` is the constant stub of
  `list_voices` (backend/gcloud_client.py:52-53); its result is stated by
  `App.VoicesWithClientAreEmpty`.
- `App`: each handler as a pure function. Each takes the parsed body
  (`None` when the body is not valid JSON) and an oracle for the client
  call, and returns a `Response`. `HealthCheck` is `health_check`,
  `TranslateEndpoint` is `translate_endpoint`, `DetectEndpoint` is
  `detect_endpoint`, `TtsEndpoint` is `tts_endpoint` and `VoicesEndpoint`
  is `voices_endpoint`. `AudioReply` is the format branch of `tts_endpoint`
  (backend/app.py:121-126), and `LowerAscii` is `str.lower()` on ASCII.

Behaviour of `backend/gcloud_client.py` worth noting:

- No voice override. `voice_name` is never read.
- The fallback test uses `startswith` on the key's primary subtag, not
  subtag equality. So `hindi` selects the Hindi voice.
- The temporary file is not always deleted. If the read or the removal
  raises, or the engine raises after writing, the file stays.
- The temporary file lives in the working directory, not a private
  directory. The code has no timeout or cancellation.

## Model

| member | source | states |
|---|---|---|
| `VoiceCatalog.PrimarySubtag` | backend/gcloud_client.py:87 | `code.split('-')[0]`: the result is a prefix of the code, contains no `-`, and is followed by `-` when shorter than the code |
| `VoiceCatalog.PrimarySubtagUnique` | backend/gcloud_client.py:87 | those three properties determine the primary subtag uniquely |
| `VoiceCatalog.SelectVoice` | backend/gcloud_client.py:83-89 | on any table with distinct keys (as a Python dict's are): the dict lookup with the default, then for a non-key code the scan with `break`; returns exactly the voice `SelectedVoiceIn` specifies (the exact key's voice, else the first prefix match's voice, else the default) |
| `VoiceCatalog.LookupFindsKey` | backend/gcloud_client.py:83 | in a table with distinct keys, looking up entry i's key gives entry i's voice |
| `VoiceCatalog.LookupMissesNonKey` | backend/gcloud_client.py:85 | the lookup misses if and only if the code is not a key (`not in voice_map`) |
| `VoiceCatalog.FirstPrefixIndexIsFirst` | backend/gcloud_client.py:86-89 | the scan stops at index j when entry j matches and no earlier entry does |
| `VoiceCatalog.FirstPrefixIndexFound` | backend/gcloud_client.py:86-89 | an index the scan stops at matches, and every earlier entry fails to match |
| `VoiceCatalog.NoPrefixMatch` | backend/gcloud_client.py:86-89 | when no entry matches, the scan runs to the end without selecting |
| `VoiceCatalog.VoiceTableKeysDistinct` | backend/gcloud_client.py:66-81 | the 14 keys of the table are pairwise distinct |
| `VoiceCatalog.VoiceTablePrimarySubtags` | backend/gcloud_client.py:66-81 | every key's primary subtag is its first two characters |
| `VoiceCatalog.ExactKeySelectsItsVoice` | backend/gcloud_client.py:83 | a code that is a key selects that key's voice |
| `VoiceCatalog.PrefixSelectsFirstMatch` | backend/gcloud_client.py:85-89 | a non-key code selects the voice of the first entry, in declaration order, whose primary subtag is a string prefix of it |
| `VoiceCatalog.NoMatchSelectsDefault` | backend/gcloud_client.py:83-89 | a non-key code that no primary subtag prefixes selects `en-US-JennyNeural` |
| `VoiceCatalog.SelectedVoiceIsTableVoice` | backend/gcloud_client.py:66-89 | whatever the code, the selected voice is one of the table's voices |
| `VoiceCatalog.CanadianFrenchSelectsDenise` | backend/gcloud_client.py:85-89 | `fr-CA` selects `fr-FR-DeniseNeural` |
| `VoiceCatalog.AustralianEnglishSelectsJenny` | backend/gcloud_client.py:85-89 | `en-AU` selects `en-US-JennyNeural` through the first `en` entry |
| `VoiceCatalog.PrefixIsNotSubtagEquality` | backend/gcloud_client.py:87 | `hindi` has primary subtag `hindi` (not `hi`), yet it selects the Hindi voice, because the test is `startswith` |
| `VoiceCatalog.UnknownLocaleSelectsDefault` | backend/gcloud_client.py:83-89 | `xx-YY` selects the default voice |
| `OnlineTts.RunEdgeTts` | backend/gcloud_client.py:103-110 | the call raises exactly when the stream breaks, with the stream's message; otherwise it returns the in-order concatenation of the data of the audio chunks |
| `OnlineTts.AudioOfAppend` | backend/gcloud_client.py:106-108 | the output of two stream segments in a row is the first segment's output followed by the second's |
| `OnlineTts.OtherChunksContributeNothing` | backend/gcloud_client.py:107 | a chunk whose type is not `"audio"` changes nothing, wherever it arrives |
| `OnlineTts.NoAudioChunksNoBytes` | backend/gcloud_client.py:106-110 | a finished stream without audio chunks yields an empty buffer; this counts as success, so there is no fallback |
| `OnlineTts.AudioChunkInPlace` | backend/gcloud_client.py:106-108 | the data of each audio chunk appears in the output at the offset given by the output of the chunks before it |
| `OfflineTts.AfterRender` | backend/gcloud_client.py:121-127 | rendering touches at most the temporary file |
| `OfflineTts.OfflineOutcome` | backend/gcloud_client.py:117-138 | on the success path the contents of the rendered file are returned and the file is gone; on every other path the result is empty; other files are never touched |
| `OfflineTts.RunOfflineTts` | backend/gcloud_client.py:112-138 | the sequence of filename, engine, exists check, read and remove, with its early exits, gives exactly `OfflineOutcome` and never raises |
| `OfflineTts.MissingFileGivesEmpty` | backend/gcloud_client.py:129-135 | no file after rendering gives `b""` and leaves the filesystem as the engine left it |
| `OfflineTts.ExceptionGivesEmpty` | backend/gcloud_client.py:136-138 | any exception gives `b""`; if the read or the removal raised, the rendered file is left behind |
| `OfflineTts.SuccessReturnsFileAndRemovesIt` | backend/gcloud_client.py:129-133 | a rendered file is read and then removed, whether or not its name was fresh |
| `FreeClient.SynthesizeSpeech` | backend/gcloud_client.py:55-101 | empty text gives `b""` with no engine consulted and the filesystem unchanged; otherwise the service is asked for the selected voice; a finished stream's audio is returned unchanged; a broken one gives the single offline outcome; the voice name and the format affect nothing |
| `FreeClient.TranslateText` | backend/gcloud_client.py:21-39 | empty text gives `("", "und")`; the call raises exactly when the text is non-empty and the translator raises, with the message prefixed `Translation failed: `; a raising detector only makes the source language `und` |
| `FreeClient.DetectLanguage` | backend/gcloud_client.py:41-50 | empty text or a raising engine gives `[]`; otherwise one record per engine result, with the same length and order |
| `App.TranslateRejectsInvalidBody` | backend/app.py:39-42 | a body that is not JSON, or an empty object, is a 400 `Invalid JSON body` whatever the client does |
| `App.DetectRejectsInvalidBody` | backend/app.py:63-66 | the same on /detect-language |
| `App.TtsRejectsInvalidBody` | backend/app.py:95-97 | the same on /tts |
| `App.TranslateValidation` | backend/app.py:44-58 | a falsy `text` is a 400 before `target` is looked at; a falsy `target` is the next 400; the client's answer matters only when both are truthy; its result is returned unchanged; its exception is a 500 with `details` |
| `App.TranslateWithClient` | backend/app.py:53-58 | behind the client's `translate_text`, a translator failure is a 500 whose details start with `Translation failed: `, and a detector failure still gives 200 with `und` |
| `App.DetectShaping` | backend/app.py:72-90 | a non-empty list gives the first record's language and confidence plus the whole list in order as `all_detections`; an empty list gives `und` and 0.0; an exception gives a 500 with the prefix `Failed to detect language: ` |
| `App.DetectMissingText` | backend/app.py:68-70 | a falsy `text` on /detect-language is a 400 `Missing 'text' parameter`, and the client's answer does not matter |
| `App.TtsMissingText` | backend/app.py:99-105 | a falsy `text` is a 400 and the synthesizer's answer does not matter |
| `App.TtsDefaults` | backend/app.py:99-126 | without `lang` and `format`, synthesis is asked for `en-US` and `mp3`, and its bytes come back as `output.mp3` |
| `App.TtsNonStringFormat` | backend/app.py:121-137 | a `format` that is not a string fails at `.lower()` after synthesis, and the reply is a 500 |
| `App.TtsAttachment` | backend/app.py:108-137 | the synthesized bytes, empty ones included, are sent unmodified with status 200; the reply is `audio/wav` and `output.wav` exactly when the lower-cased format is `linear16`, and `audio/mpeg` and `output.mp3` otherwise; a raising synthesizer is a 500 |
| `App.Linear16IgnoresCase` | backend/app.py:121-123 | every upper/lower-case spelling of `linear16` gives a WAV attachment |
| `App.Mp3IsMpeg` | backend/app.py:124-126 | `mp3` gives an MPEG attachment |
| `App.HealthIsOk` | backend/app.py:29-34 | /health is always 200 `{"status": "ok"}` |
| `App.VoicesWithClientAreEmpty` | backend/app.py:139-147 | with the client's `list_voices` stub (backend/gcloud_client.py:52-53, `FreeClient.ListVoices`), /voices is 200 `{"voices": []}` for every language |
| `App.VoicesError` | backend/app.py:148-149 | a raising client on /voices is a 500 whose `error` is the message |

## Left out

- Flask plumbing is not modelled: routing, `request.get_json`, `send_file`, `render_template` and the `/` route, the template and static paths, the `BytesIO` handling, logging, `print`, and `app.run` with the `PORT` variable. The handlers receive the body already parsed.
- A top-level JSON body that is a truthy list, string or number, or `true`, is not modelled. Python would raise on `data.get` and answer 500. A falsy one (`[]`, `""`, `0`, `0.0` or `false`) is caught by `if not data` and answers 400 `Invalid JSON body`, as a missing body does here. The body is an optional object.
- The engines are oracles. Their internals are not modelled: the edge-tts network session, asyncio event-loop creation, pyttsx3 properties (rate 150) and rendering, deep-translator and langdetect. A failure to create the event loop counts as a broken stream with no chunks. The unclosed event loop after a failure is not modelled.
- `uuid.uuid4()` is a token parameter. Its freshness is not assumed; the offline lemmas hold either way.
- Confidence values are floats in Python and `real` here. They are carried through and never computed.
- `str.lower()` is modelled on ASCII letters only. A non-ASCII character never lower-cases to exactly one letter of `linear16`: U+0130, for example, lower-cases to `i` followed by U+0307, which makes the result one character longer. So a string containing a non-ASCII character never lower-cases to `linear16`, and the WAV test is unaffected.
- Dynamic-typing accidents inside the client are not modelled. An example is a JSON `null` for `lang`, which raises in the online block and falls back offline. `SynthesizeSpeech` takes strings. The handlers pass JSON values to an oracle.
- The handlers are not linked to `SynthesizeSpeech` or `DetectLanguage`, because a Dafny function cannot call a method. The handler lemmas hold for every client answer, so they hold for the modelled ones too.
- DetectLanguage: an exception mid-loop is not modelled. It can only come from the engine call, because iterating a Python list does not raise. So the records collected so far are always `[]`.
- `frontend/static/script.js` is UI code and is not part of this model.
