/**
 The online neural synthesizer. The remote service answers one request with
 a stream of tagged chunks; only the data of chunks tagged "audio" is kept,
 concatenated in arrival order. A stream that breaks makes the whole call
 raise, so the bytes buffered so far are never returned.
 */
module OnlineTts {
  import opened Common

  /** One message of the stream: its "type" tag and its "data". */
  datatype Chunk = Chunk(kind: string, data: bytes)

  /** How a stream ends: normally, or by raising (no connectivity, a refused
      session, a protocol error, an event loop that cannot be created). */
  datatype StreamEnd = Finished | Broken(message: string)

  /** What the service delivers for one (text, voice) request: the chunks
      that arrive, in order, then how the stream ends. A failure before the
      first chunk is a broken stream with no chunks. */
  datatype ChunkStream = ChunkStream(chunks: seq<Chunk>, end: StreamEnd)

  /** The remote service, as an oracle from (text, voice) to its stream. */
  type Service = (string, string) -> ChunkStream

  predicate IsAudio(c: Chunk) {
    c.kind == "audio"
  }

  /** What one chunk adds to the output buffer. */
  function Contribution(c: Chunk): bytes {
    if IsAudio(c) then c.data else []
  }

  /** The bytes a complete stream of `chunks` yields. */
  function AudioOf(chunks: seq<Chunk>): bytes {
    if chunks == [] then [] else Contribution(chunks[0]) + AudioOf(chunks[1..])
  }

  /** `_run_edge_tts`: open the stream for `text` spoken by `voice` and append
      the data of every audio chunk to a buffer, in arrival order. */
  method RunEdgeTts(service: Service, text: string, voice: string) returns (r: Attempt<bytes>)
    ensures r.Returned? <==> service(text, voice).end.Finished?
    ensures r.Returned? ==> r.value == AudioOf(service(text, voice).chunks)
    ensures r.Raised? ==> r.message == service(text, voice).end.message
  {
    var stream := service(text, voice);
    var out: bytes := [];
    var i := 0;
    while i < |stream.chunks|
      invariant 0 <= i <= |stream.chunks|
      invariant out == AudioOf(stream.chunks[..i])
    {
      var chunk := stream.chunks[i];
      if chunk.kind == "audio" {
        out := out + chunk.data;
      }
      AudioOfAppend(stream.chunks[..i], [chunk]);
      assert stream.chunks[..i + 1] == stream.chunks[..i] + [chunk];
      i := i + 1;
    }
    assert stream.chunks[..i] == stream.chunks;
    if stream.end.Broken? {
      return Raised(stream.end.message);
    }
    return Returned(out);
  }

  /** Output is a homomorphism from chunk sequences to byte sequences. */
  lemma {:induction false} AudioOfAppend(a: seq<Chunk>, b: seq<Chunk>)
    ensures AudioOf(a + b) == AudioOf(a) + AudioOf(b)
  {
    if a != [] {
      assert (a + b)[0] == a[0];
      assert (a + b)[1..] == a[1..] + b;
      AudioOfAppend(a[1..], b);
      assert AudioOf(a + b) == Contribution(a[0]) + (AudioOf(a[1..]) + AudioOf(b));
    } else {
      assert a + b == b;
    }
  }

  /** A chunk of any other type contributes nothing, wherever it arrives. */
  lemma OtherChunksContributeNothing(a: seq<Chunk>, c: Chunk, b: seq<Chunk>)
    requires !IsAudio(c)
    ensures AudioOf(a + [c] + b) == AudioOf(a + b)
  {
    AudioOfAppend(a + [c], b);
    AudioOfAppend(a, [c]);
    AudioOfAppend(a, b);
  }

  /** A stream with no audio chunk yields an empty (successful) buffer. */
  lemma {:induction false} NoAudioChunksNoBytes(chunks: seq<Chunk>)
    requires forall i :: 0 <= i < |chunks| ==> !IsAudio(chunks[i])
    ensures AudioOf(chunks) == []
  {
    if chunks != [] {
      NoAudioChunksNoBytes(chunks[1..]);
    }
  }

  /** Arrival order is kept: the data of the audio chunk at position `i`
      sits in the output right after the output of the chunks before it. */
  lemma AudioChunkInPlace(chunks: seq<Chunk>, i: nat)
    requires i < |chunks| && IsAudio(chunks[i])
    ensures var start := |AudioOf(chunks[..i])|;
      start + |chunks[i].data| <= |AudioOf(chunks)| &&
      AudioOf(chunks)[start..start + |chunks[i].data|] == chunks[i].data
  {
    assert chunks == chunks[..i] + [chunks[i]] + chunks[i + 1..];
    AudioOfAppend(chunks[..i] + [chunks[i]], chunks[i + 1..]);
    AudioOfAppend(chunks[..i], [chunks[i]]);
    assert AudioOf([chunks[i]]) == chunks[i].data;
  }
}
