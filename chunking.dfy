/**
 * `split_audio` reduced to slice bounds, and the assembly of a recording's
 * transcript from the text of each chunk.
 */
module Chunking {
  import opened Wrappers

  /** Five minutes in milliseconds: the chunk length both scripts pass to `split_audio`. */
  const ChunkLengthMs: nat := 5 * 60 * 1000

  /** The slice `audio[start:end]` of a recording, bounds in milliseconds. */
  datatype Chunk = Chunk(start: nat, end: nat) {
    function Length(): int { end - start }
  }

  function Min(a: int, b: int): int { if a <= b then a else b }

  /**
   * `[audio[i:i + size] for i in range(from, length, size)]`; a slice past the end
   * of the audio is cut short at `length`, as pydub does.
   */
  function ChunksFrom(from: nat, length: nat, size: nat): (r: seq<Chunk>)
    requires size > 0
    ensures from < length ==> |r| > 0 && r[0].start == from && r[|r| - 1].end == length
    ensures from >= length ==> r == []
    decreases length - from
  {
    if from >= length then []
    else [Chunk(from, Min(from + size, length))] + ChunksFrom(from + size, length, size)
  }

  /** Every chunk lies within `[from, length)`, is not empty, and is at most `size` long. */
  predicate WithinBounds(chunks: seq<Chunk>, from: nat, length: nat, size: nat) {
    forall k :: 0 <= k < |chunks| ==>
      from <= chunks[k].start && 0 < chunks[k].Length() <= size && chunks[k].end <= length
  }

  /** The chunks from `from` keep within the audio after `from`; none is empty or longer than `size`. */
  lemma {:induction false} ChunksFromBounds(from: nat, length: nat, size: nat)
    requires size > 0
    ensures WithinBounds(ChunksFrom(from, length, size), from, length, size)
    decreases length - from
  {
    if from < length {
      var rest := ChunksFrom(from + size, length, size);
      var r := ChunksFrom(from, length, size);
      ChunksFromBounds(from + size, length, size);
      assert r == [Chunk(from, Min(from + size, length))] + rest;
      forall k | 0 < k < |r|
        ensures from <= r[k].start && 0 < r[k].Length() <= size && r[k].end <= length
      {
        assert r[k] == rest[k - 1];
      }
    }
  }

  /** `split_audio` on a recording of `length` milliseconds with chunks of `size` milliseconds. */
  function SplitAudio(length: nat, size: nat): seq<Chunk>
    requires size > 0
  {
    ChunksFrom(0, length, size)
  }

  lemma MulSucc(k: int, size: int)
    ensures (k + 1) * size == k * size + size
  {
  }

  lemma MulMonotone(j: nat, k: nat, size: nat)
    requires j <= k
    ensures j * size <= k * size
  {
  }

  /** Division is determined by quotient and remainder bounds. */
  lemma DivUnique(x: nat, size: nat, q: nat)
    requires size > 0 && q * size <= x < q * size + size
    ensures x / size == q
  {
    var d := x / size;
    assert d * size <= x < d * size + size;
    if d < q {
      MulMonotone(d + 1, q, size);
      MulSucc(d, size);
    } else if d > q {
      MulMonotone(q + 1, d, size);
      MulSucc(q, size);
    }
  }

  /**
   * The number `n` of chunks from `from` is the least number of `size` steps that
   * reach `length`: `n * size` reaches it and `(n - 1) * size` does not.
   */
  lemma {:induction false} ChunksFromCount(from: nat, length: nat, size: nat)
    requires size > 0
    ensures var n := |ChunksFrom(from, length, size)|;
      from < length ==> n > 0 && (n - 1) * size < length - from <= n * size
    decreases length - from
  {
    if from < length {
      var m := |ChunksFrom(from + size, length, size)|;
      assert |ChunksFrom(from, length, size)| == m + 1;
      var hi := m * size;
      assert (m + 1) * size == hi + size by { MulSucc(m, size); }
      if from + size < length {
        ChunksFromCount(from + size, length, size);
        assert m > 0 && (m - 1) * size < length - from - size <= hi;
        assert (m - 1) * size + size == hi by { MulSucc(m - 1, size); }
      } else {
        assert m == 0 && hi == 0;
      }
    }
  }

  /** `split_audio` yields `ceil(length / size)` chunks; no chunk at all for empty audio. */
  lemma SplitAudioCount(length: nat, size: nat)
    requires size > 0
    ensures |SplitAudio(length, size)| == (length + size - 1) / size
    ensures length == 0 <==> SplitAudio(length, size) == []
  {
    var n := |SplitAudio(length, size)|;
    ChunksFromCount(0, length, size);
    if length > 0 {
      MulSucc(n - 1, size);
      DivUnique(length + size - 1, size, n);
    } else {
      DivUnique(length + size - 1, size, 0);
    }
  }

  /** Chunk `k` from `from` is the slice starting `k` steps, `offset` milliseconds, later. */
  lemma {:induction false} ChunksFromAt(from: nat, length: nat, size: nat, k: nat, offset: nat)
    requires size > 0 && k < |ChunksFrom(from, length, size)| && offset == k * size
    ensures ChunksFrom(from, length, size)[k] == Chunk(from + offset, Min(from + offset + size, length))
    decreases k
  {
    if k > 0 {
      MulSucc(k - 1, size);
      ChunksFromAt(from + size, length, size, k - 1, offset - size);
    }
  }

  /** Chunk `k` of `split_audio` is `audio[k * size:(k + 1) * size]`, cut short at the end. */
  lemma SplitAudioAt(length: nat, size: nat, k: nat)
    requires size > 0 && k < |SplitAudio(length, size)|
    ensures SplitAudio(length, size)[k] == Chunk(k * size, Min((k + 1) * size, length))
  {
    ChunksFromAt(0, length, size, k, k * size);
    MulSucc(k, size);
  }

  /**
   * Consecutive chunks meet: each one ends where the next starts, and every chunk but
   * the last is exactly `size` long.
   */
  lemma SplitAudioContiguous(length: nat, size: nat, k: nat)
    requires size > 0 && k + 1 < |SplitAudio(length, size)|
    ensures SplitAudio(length, size)[k].end == SplitAudio(length, size)[k + 1].start
    ensures SplitAudio(length, size)[k].Length() == size
  {
    SplitAudioAt(length, size, k);
    SplitAudioAt(length, size, k + 1);
    ChunksFromBounds(0, length, size);
    assert 0 < ChunksFrom(0, length, size)[k + 1].Length();
  }

  lemma DivBounds(t: nat, size: nat)
    requires size > 0
    ensures (t / size) * size <= t < (t / size) * size + size
  {
  }

  /** Millisecond `t` of the recording lies in chunk `t / size`. */
  lemma ChunkOfMillisecond(length: nat, size: nat, t: nat)
    requires size > 0 && t < length
    ensures t / size < |SplitAudio(length, size)|
    ensures SplitAudio(length, size)[t / size].start <= t < SplitAudio(length, size)[t / size].end
  {
    var n := |SplitAudio(length, size)|;
    var q := t / size;
    ChunksFromCount(0, length, size);
    DivBounds(t, size);
    if q >= n {
      MulMonotone(n, q, size);
    }
    SplitAudioAt(length, size, q);
    MulSucc(q, size);
  }

  /** Millisecond `t` lies in no chunk other than chunk `t / size`. */
  lemma NoOtherChunkHolds(length: nat, size: nat, t: nat, k: nat)
    requires size > 0 && t < length && k < |SplitAudio(length, size)| && k != t / size
    ensures !(SplitAudio(length, size)[k].start <= t < SplitAudio(length, size)[k].end)
  {
    var q := t / size;
    DivBounds(t, size);
    SplitAudioAt(length, size, k);
    MulSucc(k, size);
    MulSucc(q, size);
    if k < q {
      MulMonotone(k + 1, q, size);
    } else {
      MulMonotone(q + 1, k, size);
    }
  }

  /**
   * The chunks partition the recording: every millisecond `t` lies in chunk `t / size`,
   * and in no other chunk.
   */
  lemma SplitAudioPartition(length: nat, size: nat, t: nat)
    requires size > 0 && t < length
    ensures t / size < |SplitAudio(length, size)|
    ensures SplitAudio(length, size)[t / size].start <= t < SplitAudio(length, size)[t / size].end
    ensures forall k :: 0 <= k < |SplitAudio(length, size)| && k != t / size ==>
              !(SplitAudio(length, size)[k].start <= t < SplitAudio(length, size)[k].end)
  {
    ChunkOfMillisecond(length, size, t);
    forall k | 0 <= k < |SplitAudio(length, size)| && k != t / size
      ensures !(SplitAudio(length, size)[k].start <= t < SplitAudio(length, size)[k].end)
    {
      NoOtherChunkHolds(length, size, t, k);
    }
  }

  /** The chunk lengths add up to the remaining audio. */
  function TotalLength(chunks: seq<Chunk>): int
    decreases |chunks|
  {
    if chunks == [] then 0 else chunks[0].Length() + TotalLength(chunks[1..])
  }

  /** The chunks' lengths sum to the length of the recording. */
  lemma {:induction false} ChunksFromTotal(from: nat, length: nat, size: nat)
    requires size > 0
    ensures TotalLength(ChunksFrom(from, length, size)) == if from >= length then 0 else length - from
    decreases length - from
  {
    if from < length {
      var r := ChunksFrom(from, length, size);
      var rest := ChunksFrom(from + size, length, size);
      assert r == [Chunk(from, Min(from + size, length))] + rest;
      assert r[1..] == rest;
      ChunksFromTotal(from + size, length, size);
      assert TotalLength(r) == Min(from + size, length) - from + TotalLength(rest);
    }
  }

  /** The chunk durations of `split_audio` add up to the recording's duration. */
  lemma SplitAudioTotal(length: nat, size: nat)
    requires size > 0
    ensures TotalLength(SplitAudio(length, size)) == length
  {
    ChunksFromTotal(0, length, size);
  }

  /** A recording no longer than one chunk is one chunk holding all of it. */
  lemma ShortRecordingIsOneChunk(length: nat, size: nat)
    requires 0 < length <= size
    ensures SplitAudio(length, size) == [Chunk(0, length)]
  {
    assert ChunksFrom(size, length, size) == [];
  }

  /** A twelve-minute recording gives chunks of five, five and two minutes. */
  lemma TwelveMinuteRecording()
    ensures SplitAudio(12 * 60 * 1000, ChunkLengthMs)
         == [Chunk(0, 300000), Chunk(300000, 600000), Chunk(600000, 720000)]
  {
    assert ChunksFrom(900000, 720000, 300000) == [];
    assert ChunksFrom(600000, 720000, 300000) == [Chunk(600000, 720000)];
    assert ChunksFrom(300000, 720000, 300000) == [Chunk(300000, 600000), Chunk(600000, 720000)];
  }

  /** What `transcribe_audio` returns: the engine's text, or "" when the engine fails. */
  function TranscriptText(reply: Option<string>): string {
    if reply.Some? then reply.value else ""
  }

  /** `full_transcription` after the chunk loop: every text followed by one space, in order. */
  function Assemble(texts: seq<string>): string
    decreases |texts|
  {
    if texts == [] then "" else Assemble(texts[..|texts| - 1]) + texts[|texts| - 1] + " "
  }

  /** Assembling two runs of chunk texts is assembling each and concatenating. */
  lemma {:induction false} AssembleConcat(a: seq<string>, b: seq<string>)
    ensures Assemble(a + b) == Assemble(a) + Assemble(b)
    decreases |b|
  {
    if b != [] {
      var b' := b[..|b| - 1];
      assert (a + b)[..|a + b| - 1] == a + b';
      assert (a + b)[|a + b| - 1] == b[|b| - 1];
      AssembleConcat(a, b');
      calc {
        Assemble(a + b);
        Assemble(a + b') + b[|b| - 1] + " ";
        Assemble(a) + Assemble(b') + b[|b| - 1] + " ";
        Assemble(a) + (Assemble(b') + b[|b| - 1] + " ");
        Assemble(a) + Assemble(b);
      }
    } else {
      assert a + b == a;
    }
  }

  function SumLengths(texts: seq<string>): nat
    decreases |texts|
  {
    if texts == [] then 0 else SumLengths(texts[..|texts| - 1]) + |texts[|texts| - 1]|
  }

  /** The transcript holds every chunk's text plus one space per chunk. */
  lemma {:induction false} AssembleLength(texts: seq<string>)
    ensures |Assemble(texts)| == SumLengths(texts) + |texts|
    decreases |texts|
  {
    if texts != [] {
      AssembleLength(texts[..|texts| - 1]);
    }
  }

  /**
   * A chunk whose transcription failed contributes only its space: the transcript is
   * the other chunks' texts around one extra " ".
   */
  lemma FailedChunkLeavesSpace(texts: seq<string>, i: nat)
    requires i < |texts| && texts[i] == ""
    ensures Assemble(texts) == Assemble(texts[..i]) + " " + Assemble(texts[i + 1..])
  {
    assert texts == texts[..i] + [""] + texts[i + 1..];
    AssembleConcat(texts[..i] + [""], texts[i + 1..]);
    AssembleConcat(texts[..i], [""]);
    assert Assemble([""]) == " " by {
      assert [""][..0] == [];
    }
  }

  /** The texts of `transcribe_audio` for each chunk of a recording, in chunk order. */
  function ChunkTexts(recording: string, chunks: seq<Chunk>, transcribe: (string, Chunk) -> Option<string>): (r: seq<string>)
    ensures |r| == |chunks|
    ensures forall k :: 0 <= k < |r| ==> r[k] == TranscriptText(transcribe(recording, chunks[k]))
  {
    seq(|chunks|, k requires 0 <= k < |chunks| => TranscriptText(transcribe(recording, chunks[k])))
  }

  /** Three chunks transcribed as "a", "b" and "c" give the transcript "a b c ". */
  lemma ThreeChunkTranscript()
    ensures Assemble(["a", "b", "c"]) == "a b c "
  {
    assert ["a", "b", "c"][..2] == ["a", "b"];
    assert ["a", "b"][..1] == ["a"];
    assert ["a"][..0] == [];
  }

  /**
   * The chunk loop of `main`: transcribe each chunk in order and append its text and
   * one space to the transcript, carrying on past chunks the engine fails on.
   */
  method TranscribeChunks(recording: string, chunks: seq<Chunk>, transcribe: (string, Chunk) -> Option<string>)
    returns (text: string)
    ensures text == Assemble(ChunkTexts(recording, chunks, transcribe))
  {
    ghost var texts := ChunkTexts(recording, chunks, transcribe);
    text := "";
    for i := 0 to |chunks|
      invariant text == Assemble(texts[..i])
    {
      var transcription := TranscriptText(transcribe(recording, chunks[i]));
      assert texts[..i + 1][..i] == texts[..i];
      text := text + transcription + " ";
    }
    assert texts[..|chunks|] == texts;
  }
}
