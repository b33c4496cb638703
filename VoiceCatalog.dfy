/**
 The voice catalogue of the online synthesizer: an ordered table from locale
 codes to neural voice names, and the rule that picks a voice for a requested
 language code. An exact key wins; otherwise the first entry, in declaration
 order, whose part before the first `-` is a string prefix of the code; and
 otherwise the default voice. There is no caller override.
 */
module VoiceCatalog {
  import opened Common

  /** A (locale code, voice name) pair of the table. */
  type Entry = (string, string)

  /** The table, in declaration order (a Python dict keeps insertion order). */
  const VOICE_TABLE: seq<Entry> := [
    ("en-US", "en-US-JennyNeural"),
    ("en-GB", "en-GB-SoniaNeural"),
    ("en-IN", "en-IN-NeerjaNeural"),
    ("hi-IN", "hi-IN-SwaraNeural"),
    ("bn-IN", "bn-IN-TanishaaNeural"),
    ("ta-IN", "ta-IN-PallaviNeural"),
    ("te-IN", "te-IN-ShrutiNeural"),
    ("mr-IN", "mr-IN-AarohiNeural"),
    ("gu-IN", "gu-IN-DhwaniNeural"),
    ("kn-IN", "kn-IN-SapnaNeural"),
    ("fr-FR", "fr-FR-DeniseNeural"),
    ("es-ES", "es-ES-ElviraNeural"),
    ("de-DE", "de-DE-KatjaNeural"),
    ("ja-JP", "ja-JP-NanamiNeural")
  ]

  /** The voice used when nothing in the table matches. */
  const DEFAULT_VOICE: string := "en-US-JennyNeural"

  /** Python's `s.startswith(prefix)`. */
  predicate StartsWith(s: string, prefix: string) {
    |prefix| <= |s| && s[..|prefix|] == prefix
  }

  /** `code.split('-')[0]`: the part of `code` before its first `-`, or all of
      `code` when it has none. */
  function PrimarySubtag(code: string): (r: string)
    ensures StartsWith(code, r)
    ensures '-' !in r
    ensures |r| < |code| ==> code[|r|] == '-'
  {
    if code == [] || code[0] == '-' then [] else [code[0]] + PrimarySubtag(code[1..])
  }

  /** The prefix test of the fallback loop for one table key. */
  predicate PrefixMatches(code: string, key: string) {
    StartsWith(code, PrimarySubtag(key))
  }

  /** Dict lookup `voice_map.get(code)`. */
  function Lookup(t: seq<Entry>, code: string): Option<string> {
    if t == [] then None
    else if t[0].0 == code then Some(t[0].1)
    else Lookup(t[1..], code)
  }

  /** The index of the first entry whose primary subtag prefixes `code`. */
  function FirstPrefixIndex(t: seq<Entry>, code: string): (r: Option<nat>)
    ensures r.Some? ==> r.value < |t|
  {
    if t == [] then None
    else if PrefixMatches(code, t[0].0) then Some(0)
    else match FirstPrefixIndex(t[1..], code)
      case None => None
      case Some(j) => Some(j + 1)
  }

  /** The voice selected for `code` from table `t`. */
  function SelectedVoiceIn(t: seq<Entry>, code: string): string {
    match Lookup(t, code)
    case Some(v) => v
    case None =>
      match FirstPrefixIndex(t, code)
      case Some(j) => t[j].1
      case None => DEFAULT_VOICE
  }

  /** The voice the online path speaks `code` with. */
  function SelectedVoice(code: string): string {
    SelectedVoiceIn(VOICE_TABLE, code)
  }

  ghost predicate IsKey(t: seq<Entry>, code: string) {
    exists i :: 0 <= i < |t| && t[i].0 == code
  }

  ghost predicate DistinctKeys(t: seq<Entry>) {
    forall i, j :: 0 <= i < j < |t| ==> t[i].0 != t[j].0
  }

  /** Voice selection as the source writes it, over the table `voiceMap`:
      a dict lookup with the default, then, only for a code that is not a
      key, a scan in declaration order that stops at the first entry whose
      primary subtag prefixes the code. */
  method SelectVoice(voiceMap: seq<Entry>, code: string) returns (voice: string)
    ensures voice == SelectedVoiceIn(voiceMap, code)
  {
    var exact := Lookup(voiceMap, code);
    voice := if exact.Some? then exact.value else DEFAULT_VOICE;
    if exact.None? {
      var i := 0;
      while i < |voiceMap|
        invariant 0 <= i <= |voiceMap|
        invariant voice == DEFAULT_VOICE
        invariant forall k :: 0 <= k < i ==> !PrefixMatches(code, voiceMap[k].0)
      {
        if StartsWith(code, PrimarySubtag(voiceMap[i].0)) {
          FirstPrefixIndexIsFirst(voiceMap, code, i);
          voice := voiceMap[i].1;
          break;
        }
        i := i + 1;
      }
      if i == |voiceMap| {
        NoPrefixMatch(voiceMap, code);
      }
    }
  }

  // ---------------------------------------------------------------------------
  // Lemmas about the lookup and the scan on any table

  /** `PrimarySubtag` is the only string with its three properties. */
  lemma {:induction false} PrimarySubtagUnique(code: string, r: string)
    requires StartsWith(code, r) && '-' !in r && (|r| < |code| ==> code[|r|] == '-')
    ensures r == PrimarySubtag(code)
  {
    if code != [] && code[0] != '-' {
      assert r != [];
      assert r[0] == code[0];
      PrimarySubtagUnique(code[1..], r[1..]);
      assert r == [r[0]] + r[1..];
    }
  }

  lemma {:induction false} LookupFindsKey(t: seq<Entry>, i: nat)
    requires DistinctKeys(t) && i < |t|
    ensures Lookup(t, t[i].0) == Some(t[i].1)
  {
    if i > 0 {
      assert t[0].0 != t[i].0;
      assert DistinctKeys(t[1..]) by {
        forall a, b | 0 <= a < b < |t[1..]| ensures t[1..][a].0 != t[1..][b].0 {
          assert t[1..][a] == t[a + 1] && t[1..][b] == t[b + 1];
        }
      }
      LookupFindsKey(t[1..], i - 1);
      assert t[1..][i - 1] == t[i];
    }
  }

  lemma {:induction false} LookupMissesNonKey(t: seq<Entry>, code: string)
    ensures Lookup(t, code) == None <==> !IsKey(t, code)
  {
    if t != [] {
      LookupMissesNonKey(t[1..], code);
      if IsKey(t[1..], code) {
        var i :| 0 <= i < |t[1..]| && t[1..][i].0 == code;
        assert t[i + 1].0 == code;
      }
      if IsKey(t, code) && t[0].0 != code {
        var i :| 0 <= i < |t| && t[i].0 == code;
        assert t[1..][i - 1].0 == code;
      }
    }
  }

  /** The scan returns index `j` exactly when entry `j` matches and no
      earlier entry does. */
  lemma {:induction false} FirstPrefixIndexIsFirst(t: seq<Entry>, code: string, j: nat)
    requires j < |t| && PrefixMatches(code, t[j].0)
    requires forall k :: 0 <= k < j ==> !PrefixMatches(code, t[k].0)
    ensures FirstPrefixIndex(t, code) == Some(j)
  {
    if j > 0 {
      assert !PrefixMatches(code, t[0].0);
      forall k | 0 <= k < j - 1 ensures !PrefixMatches(code, t[1..][k].0) {
        assert t[1..][k] == t[k + 1];
      }
      assert t[1..][j - 1] == t[j];
      FirstPrefixIndexIsFirst(t[1..], code, j - 1);
    }
  }

  lemma {:induction false} FirstPrefixIndexFound(t: seq<Entry>, code: string)
    requires FirstPrefixIndex(t, code).Some?
    ensures var j := FirstPrefixIndex(t, code).value;
      j < |t| && PrefixMatches(code, t[j].0) && forall k :: 0 <= k < j ==> !PrefixMatches(code, t[k].0)
  {
    if !PrefixMatches(code, t[0].0) {
      FirstPrefixIndexFound(t[1..], code);
      var j := FirstPrefixIndex(t[1..], code).value;
      assert t[1..][j] == t[j + 1];
      forall k | 0 <= k < j + 1 ensures !PrefixMatches(code, t[k].0) {
        if k > 0 { assert t[1..][k - 1] == t[k]; }
      }
    }
  }

  lemma {:induction false} NoPrefixMatch(t: seq<Entry>, code: string)
    requires forall k :: 0 <= k < |t| ==> !PrefixMatches(code, t[k].0)
    ensures FirstPrefixIndex(t, code) == None
  {
    if t != [] {
      forall k | 0 <= k < |t[1..]| ensures !PrefixMatches(code, t[1..][k].0) {
        assert t[1..][k] == t[k + 1];
      }
      NoPrefixMatch(t[1..], code);
    }
  }

  // ---------------------------------------------------------------------------
  // Properties of the voice table and of the selection

  lemma VoiceTableKeysDistinct()
    ensures DistinctKeys(VOICE_TABLE)
  {
    forall i, j | 0 <= i < j < |VOICE_TABLE| ensures VOICE_TABLE[i].0 != VOICE_TABLE[j].0 {
      var a, b := VOICE_TABLE[i].0, VOICE_TABLE[j].0;
      assert (a[0], a[1], a[3]) != (b[0], b[1], b[3]);
    }
  }

  /** Every key of the table is a two-letter primary subtag, a `-` and a
      region, so its primary subtag is its first two characters. */
  lemma VoiceTablePrimarySubtags(i: nat)
    requires i < |VOICE_TABLE|
    ensures PrimarySubtag(VOICE_TABLE[i].0) == VOICE_TABLE[i].0[..2]
  {
    var key := VOICE_TABLE[i].0;
    assert |key| == 5 && key[2] == '-' && key[0] != '-' && key[1] != '-';
    PrimarySubtagUnique(key, key[..2]);
  }

  /** A code that is a key of the table selects that key's voice. */
  lemma ExactKeySelectsItsVoice(i: nat)
    requires i < |VOICE_TABLE|
    ensures SelectedVoice(VOICE_TABLE[i].0) == VOICE_TABLE[i].1
  {
    VoiceTableKeysDistinct();
    LookupFindsKey(VOICE_TABLE, i);
  }

  /** A code that is not a key selects the voice of the first entry, in
      declaration order, whose primary subtag is a prefix of the code. */
  lemma PrefixSelectsFirstMatch(code: string, j: nat)
    requires !IsKey(VOICE_TABLE, code)
    requires j < |VOICE_TABLE| && PrefixMatches(code, VOICE_TABLE[j].0)
    requires forall k :: 0 <= k < j ==> !PrefixMatches(code, VOICE_TABLE[k].0)
    ensures SelectedVoice(code) == VOICE_TABLE[j].1
  {
    LookupMissesNonKey(VOICE_TABLE, code);
    FirstPrefixIndexIsFirst(VOICE_TABLE, code, j);
  }

  /** A code that is not a key and that no primary subtag prefixes selects
      the default voice. */
  lemma NoMatchSelectsDefault(code: string)
    requires !IsKey(VOICE_TABLE, code)
    requires forall k :: 0 <= k < |VOICE_TABLE| ==> !PrefixMatches(code, VOICE_TABLE[k].0)
    ensures SelectedVoice(code) == DEFAULT_VOICE
  {
    LookupMissesNonKey(VOICE_TABLE, code);
    NoPrefixMatch(VOICE_TABLE, code);
  }

  /** Whatever the code, the selected voice is one of the table's voices. */
  lemma SelectedVoiceIsTableVoice(code: string)
    ensures exists i :: 0 <= i < |VOICE_TABLE| && VOICE_TABLE[i].1 == SelectedVoice(code)
  {
    match Lookup(VOICE_TABLE, code)
    case Some(v) =>
      LookupMissesNonKey(VOICE_TABLE, code);
      var i :| 0 <= i < |VOICE_TABLE| && VOICE_TABLE[i].0 == code;
      ExactKeySelectsItsVoice(i);
    case None =>
      if FirstPrefixIndex(VOICE_TABLE, code).Some? {
        FirstPrefixIndexFound(VOICE_TABLE, code);
        var j := FirstPrefixIndex(VOICE_TABLE, code).value;
        assert VOICE_TABLE[j].1 == SelectedVoice(code);
      } else {
        assert VOICE_TABLE[0].1 == SelectedVoice(code);
      }
  }

  /** `fr-CA` has no entry of its own and falls back to the first `fr` voice. */
  lemma CanadianFrenchSelectsDenise()
    ensures SelectedVoice("fr-CA") == "fr-FR-DeniseNeural"
  {
    forall k | 0 <= k <= 10 { VoiceTablePrimarySubtags(k); }
    PrefixSelectsFirstMatch("fr-CA", 10);
  }

  /** `en-AU` falls back to the first `en` entry, `en-US`. */
  lemma AustralianEnglishSelectsJenny()
    ensures SelectedVoice("en-AU") == "en-US-JennyNeural"
  {
    VoiceTablePrimarySubtags(0);
    PrefixSelectsFirstMatch("en-AU", 0);
  }

  /** The test is a string prefix, not subtag equality: `hindi` has primary
      subtag `hindi`, yet it starts with `hi` and selects the Hindi voice. */
  lemma PrefixIsNotSubtagEquality()
    ensures PrimarySubtag("hindi") == "hindi" && PrimarySubtag("hindi") != "hi"
    ensures SelectedVoice("hindi") == "hi-IN-SwaraNeural"
  {
    PrimarySubtagUnique("hindi", "hindi");
    forall k | 0 <= k <= 3 { VoiceTablePrimarySubtags(k); }
    PrefixSelectsFirstMatch("hindi", 3);
  }

  /** An unknown locale selects the default voice. */
  lemma UnknownLocaleSelectsDefault()
    ensures SelectedVoice("xx-YY") == DEFAULT_VOICE
  {
    forall k | 0 <= k < |VOICE_TABLE| ensures !PrefixMatches("xx-YY", VOICE_TABLE[k].0) {
      VoiceTablePrimarySubtags(k);
    }
    NoMatchSelectsDefault("xx-YY");
  }
}
