/**
 * One recording in `obsidian_whisper_basic.py`: transcribe it chunk by chunk, save the
 * transcript as `Transcripts/<base name>.md`, then append the recording to the log.
 */
module BasicScript {
  import opened Wrappers
  import opened Text
  import opened Chunking
  import opened CompletionLog
  import opened VaultModel
  import opened Pipeline

  /** The note name for a recording: its name without the extension. */
  function NoteName(recording: string): string {
    SplitExt(recording).0
  }

  /** What the script does for a recording of `length` milliseconds that is not logged yet. */
  function RecordingEffects(recording: string, length: nat, env: Engines): seq<Effect> {
    SaveEffects([], NoteName(recording), Transcript(recording, length, env), false) + [AppendLog(recording)]
  }

  /**
   * After one recording, `Transcripts/<base name>.md` holds its transcript unchanged,
   * no other note is touched, and the log has the recording appended.
   */
  lemma RecordingNote(s: VaultState, recording: string, length: nat, env: Engines)
    ensures var t := Replay(s, RecordingEffects(recording, length, env));
      && t.notes == s.notes[NoteKey(["Transcripts"], SplitExt(recording).0 + ".md") := Transcript(recording, length, env)]
      && t.log == Appended(s.log, recording)
  {
    var save := SaveEffects([], NoteName(recording), Transcript(recording, length, env), false);
    var effects := RecordingEffects(recording, length, env);
    SaveToMarkdownWrites(s, [], NoteName(recording), Transcript(recording, length, env), false);
    ReplaySnoc(s, save, AppendLog(recording));
    assert Replay(s, effects).notes == Replay(s, save).notes;
    assert MarkdownFolder([], false) == ["Transcripts"];
  }

  /**
   * A twelve-minute "talk.mp3" whose three chunks are heard as "a", "b" and "c" becomes
   * the note `Transcripts/talk.md` holding "a b c ", and a readable log then holds
   * "talk.mp3".
   */
  lemma TwelveMinuteScenario(s: VaultState, env: Engines)
    requires env.transcribe("talk.mp3", Chunk(0, 300000)) == Some("a")
    requires env.transcribe("talk.mp3", Chunk(300000, 600000)) == Some("b")
    requires env.transcribe("talk.mp3", Chunk(600000, 720000)) == Some("c")
    ensures Transcript("talk.mp3", 720000, env) == "a b c "
    ensures var t := Replay(s, RecordingEffects("talk.mp3", 720000, env));
      && NoteKey(["Transcripts"], "talk.md") in t.notes
      && t.notes[NoteKey(["Transcripts"], "talk.md")] == "a b c "
      && (!s.log.Unreadable? ==> AlreadyProcessed(t.log, "talk.mp3"))
  {
    TwelveMinuteRecording();
    var texts := ChunkTexts("talk.mp3", SplitAudio(720000, ChunkLengthMs), env.transcribe);
    assert texts == ["a", "b", "c"];
    ThreeChunkTranscript();
    assert RFind("talk.mp3", '/') == -1;
    assert "talk.mp3"[4] == '.' && "talk.mp3"[5] != '.' && "talk.mp3"[6] != '.' && "talk.mp3"[7] != '.';
    assert RFind("talk.mp3", '.') == 4;
    assert "talk.mp3"[0] != '.';
    assert "talk.mp3"[..4] == "talk" && "talk.mp3"[4..] == ".mp3";
    assert SplitExt("talk.mp3").0 + ".md" == "talk.md";
    RecordingNote(s, "talk.mp3", 720000, env);
    ProcessedAfterAppend(s.log, "talk.mp3", "talk.mp3");
  }

  /**
   * The body of the per-file loop of `main` for a recording that is not logged: split,
   * transcribe, save, log. When the recording cannot be decoded `split_audio` raises,
   * which ends the run with nothing done for this recording.
   */
  method ProcessRecording(v: Vault, recording: string, env: Engines) returns (aborted: bool)
    modifies v
    ensures aborted <==> env.decode(recording).None?
    ensures aborted ==> v.State() == old(v.State()) && v.history == old(v.history)
    ensures !aborted ==>
      var effects := RecordingEffects(recording, env.decode(recording).value, env);
      v.State() == Replay(old(v.State()), effects) && v.history == old(v.history) + effects
  {
    var length := env.decode(recording);
    if length.None? {
      return true;
    }
    var chunks := SplitAudio(length.value, ChunkLengthMs);
    var transcript := TranscribeChunks(recording, chunks, env.transcribe);
    var baseName := SplitExt(recording).0;
    ghost var s0 := v.State();
    v.SaveToMarkdown([], baseName, transcript, false);
    v.UpdateLog(recording);
    ghost var save := SaveEffects([], baseName, transcript, false);
    ReplaySnoc(s0, save, AppendLog(recording));
    aborted := false;
  }
}
