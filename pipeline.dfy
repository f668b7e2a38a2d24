/**
 * What the two scripts share around the vault: the external engines, the choice of
 * recordings and category folders from the root listing, the transcript of one
 * recording, and the names `os.path.exists` finds in the vault root.
 */
module Pipeline {
  import opened Wrappers
  import opened Text
  import opened Chunking
  import opened CompletionLog
  import opened VaultModel

  /**
   * The external engines, as functions of their inputs; `None` is a call that raises.
   * `decode` is pydub reading a recording, reduced to its length in milliseconds;
   * `transcribe` is Whisper on one exported chunk of a recording; `summarize` and
   * `categorize` are the two chat-completion requests, on the transcript and on the
   * summary with the allowed folders.
   */
  datatype Engines = Engines(
    decode: string -> Option<nat>,
    transcribe: (string, Chunk) -> Option<string>,
    summarize: string -> Option<string>,
    categorize: (string, seq<string>) -> Option<string>)

  /** The recording extensions the scripts pick up. */
  const Mp3: string := ".mp3"
  const Webm: string := ".webm"

  predicate IsRecording(name: string) {
    EndsWith(name, Mp3) || EndsWith(name, Webm)
  }

  /** The recordings of the vault root, in listing order: the names ending in ".mp3" or ".webm". */
  function Candidates(entries: seq<Entry>): (r: seq<string>)
    ensures forall x :: x in r ==> IsRecording(x)
    ensures forall k :: 0 <= k < |entries| && IsRecording(entries[k].name) ==> entries[k].name in r
    ensures forall x :: x in r ==> x in Names(entries)
    decreases |entries|
  {
    if entries == [] then []
    else
      var init := entries[..|entries| - 1];
      var e := entries[|entries| - 1];
      var rest := Candidates(init);
      assert forall k :: 0 <= k < |init| ==> init[k] == entries[k];
      assert forall x :: x in Names(init) ==> x in Names(entries);
      if IsRecording(e.name) then rest + [e.name] else rest
  }

  /** The category folders: the names of the root's sub-folders, in listing order. */
  function AllowedCategories(entries: seq<Entry>): (r: seq<string>)
    ensures forall k :: 0 <= k < |entries| && entries[k].kind == Dir ==> entries[k].name in r
    ensures forall x :: x in r ==> exists k :: 0 <= k < |entries| && entries[k].kind == Dir && entries[k].name == x
    decreases |entries|
  {
    if entries == [] then []
    else
      var init := entries[..|entries| - 1];
      var e := entries[|entries| - 1];
      var rest := AllowedCategories(init);
      assert forall k :: 0 <= k < |init| ==> init[k] == entries[k];
      if e.kind == Dir then rest + [e.name] else rest
  }

  /** The full transcript of a recording of `length` milliseconds: its five-minute chunks, transcribed in order. */
  function Transcript(recording: string, length: nat, env: Engines): string {
    Assemble(ChunkTexts(recording, SplitAudio(length, ChunkLengthMs), env.transcribe))
  }

  /**
   * The names `os.path.exists(os.path.join(vault, name))` holds for: the root's entries,
   * the log file whenever there is one (readable or not), and "", "." and "..", which
   * join to the vault folder itself or its parent.
   */
  function ExistingNames(s: VaultState): (r: set<string>)
    ensures Names(s.entries) <= r
    ensures "" in r
    ensures !s.log.Missing? ==> LogName in r
  {
    Names(s.entries) + {"", ".", ".."} + (if s.log.Missing? then {} else {LogName})
  }
}
