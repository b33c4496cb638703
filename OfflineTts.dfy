/**
 The offline synthesizer. The local engine renders speech into a temporary
 file named after a fresh token; the file is then read and removed. Every
 failure along the way yields an empty buffer instead of raising.
 */
module OfflineTts {
  import opened Common

  /** The filesystem: file name to contents. */
  type Files = map<string, bytes>

  /** `f"temp_tts_{uuid.uuid4().hex}.mp3"`, with the fresh hex token given. */
  function TempFileName(token: string): string {
    "temp_tts_" + token + ".mp3"
  }

  /** What the local engine does for one text. */
  datatype EngineRun =
      /** `pyttsx3.init()` or setting the rate raised. */
    | InitRaised(message: string)
      /** `save_to_file` or `runAndWait` raised, after writing `written`
          into the file, or nothing. */
    | RenderRaised(written: Option<bytes>, message: string)
      /** Rendering finished, having written `written`, or no file at all. */
    | Rendered(written: Option<bytes>)

  /** The engine, as an oracle from the text to what it does; it is given
      neither the voice nor the format. */
  type Engine = string -> EngineRun

  /** Whether reading the file and removing it raise. */
  datatype FileAccess = FileAccess(readRaises: bool, removeRaises: bool)

  /** The filesystem once the engine has run. */
  function AfterRender(fs: Files, name: string, run: EngineRun): (r: Files)
    ensures forall n :: n != name ==> (n in r <==> n in fs) && (n in r ==> r[n] == fs[n])
  {
    match run
    case InitRaised(_) => fs
    case RenderRaised(w, _) => if w.Some? then fs[name := w.value] else fs
    case Rendered(w) => if w.Some? then fs[name := w.value] else fs
  }

  /** The success path: rendering finished, the file exists, and both the
      read and the removal went through. */
  predicate OfflineSucceeds(fs: Files, name: string, run: EngineRun, access: FileAccess) {
    run.Rendered? && name in AfterRender(fs, name, run) && !access.readRaises && !access.removeRaises
  }

  /** The bytes returned and the filesystem left behind by one offline attempt. */
  function OfflineOutcome(fs: Files, name: string, run: EngineRun, access: FileAccess): (r: (bytes, Files))
    ensures OfflineSucceeds(fs, name, run, access) ==>
      r.0 == AfterRender(fs, name, run)[name] && name !in r.1
    ensures !OfflineSucceeds(fs, name, run, access) ==> r.0 == []
    ensures forall n :: n != name ==> (n in r.1 <==> n in fs) && (n in r.1 ==> r.1[n] == fs[n])
  {
    var rendered := AfterRender(fs, name, run);
    if OfflineSucceeds(fs, name, run, access) then (rendered[name], rendered - {name})
    else ([], rendered)
  }

  /** `_run_offline_tts`: render into the temporary file, and if it exists
      read it and then remove it; any exception gives an empty buffer. */
  method RunOfflineTts(engine: Engine, text: string, token: string, fs: Files, access: FileAccess)
    returns (data: bytes, fs': Files)
    ensures (data, fs') == OfflineOutcome(fs, TempFileName(token), engine(text), access)
  {
    var filename := TempFileName(token);
    var run := engine(text);
    if run.InitRaised? {
      return [], fs;
    }
    fs' := if run.written.Some? then fs[filename := run.written.value] else fs;
    if run.RenderRaised? {
      return [], fs';
    }
    if filename !in fs' {
      return [], fs';
    }
    if access.readRaises {
      return [], fs';
    }
    data := fs'[filename];
    if access.removeRaises {
      return [], fs';
    }
    fs' := fs' - {filename};
  }

  /** A file that is absent after rendering gives an empty buffer and leaves
      the filesystem as the engine left it. */
  lemma MissingFileGivesEmpty(fs: Files, name: string, run: EngineRun, access: FileAccess)
    requires name !in AfterRender(fs, name, run)
    ensures OfflineOutcome(fs, name, run, access) == ([], AfterRender(fs, name, run))
  {
  }

  /** Any exception gives an empty buffer; a read or removal that raises
      leaves the rendered temporary file behind. */
  lemma ExceptionGivesEmpty(fs: Files, name: string, run: EngineRun, access: FileAccess)
    requires run.InitRaised? || run.RenderRaised? || access.readRaises || access.removeRaises
    ensures OfflineOutcome(fs, name, run, access).0 == []
    ensures run.Rendered? && name in AfterRender(fs, name, run) ==> name in OfflineOutcome(fs, name, run, access).1
  {
  }

  /** On the success path the rendered contents are returned and the
      temporary file is gone, whether or not its name was fresh. */
  lemma SuccessReturnsFileAndRemovesIt(fs: Files, token: string, data: bytes, access: FileAccess)
    requires !access.readRaises && !access.removeRaises
    ensures var name := TempFileName(token);
      OfflineOutcome(fs, name, Rendered(Some(data)), access) == (data, fs - {name})
  {
    var name := TempFileName(token);
    assert fs[name := data] - {name} == fs - {name};
  }
}
