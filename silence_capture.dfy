/**
  Count-based, silence-terminated microphone capture (`record_until_silence`
  in speech_to_text.py).

  The loop takes blocks from the audio queue one at a time, appends each to
  the list of recorded chunks, and keeps a counter of consecutive quiet
  blocks: a block whose volume is below the threshold increments it, any
  other block resets it to 0. The loop breaks on the first block at which
  the counter reaches the configured maximum. The recorded audio is the
  concatenation of all chunks.

  The source's queue never runs dry (`get` blocks); here the stream is a
  finite sequence, and running out of it means the recording is still going.
*/
module SilenceCapture {

  /** One block taken from the audio queue. `energy` stands for the block's
      volume, `np.linalg.norm(block) * 10`, as an integer; `samples` is the
      block's audio payload. */
  datatype Block = Block(energy: int, samples: seq<int>)

  /** `silence_threshold` of the source. */
  const SilenceThreshold: int := 100
  /** `max_silence_blocks` of the source: 14 blocks of 0.5 s, about 7 s. */
  const MaxSilenceBlocks: int := 14

  predicate Quiet(b: Block, threshold: int)
  {
    b.energy < threshold
  }

  /** The `silent_blocks` counter once the loop has consumed `bs`, starting from 0. */
  function SilentCount(bs: seq<Block>, threshold: int): nat
    decreases |bs|
  {
    if bs == [] then 0
    else if Quiet(bs[|bs| - 1], threshold) then SilentCount(bs[..|bs| - 1], threshold) + 1
    else 0
  }

  /** Blocks `lo` (inclusive) to `hi` (exclusive) of `bs` are all quiet. */
  predicate QuietRun(bs: seq<Block>, lo: int, hi: int, threshold: int)
    requires 0 <= lo <= hi <= |bs|
  {
    forall i :: lo <= i < hi ==> Quiet(bs[i], threshold)
  }

  /** The `limit` blocks ending just before position `end` are all quiet. */
  predicate QuietWindow(bs: seq<Block>, end: int, limit: int, threshold: int)
    requires limit >= 0
  {
    limit <= end <= |bs| && QuietRun(bs, end - limit, end, threshold)
  }

  /** The loop, fed `bs`, breaks on its `n`-th block (counting from 1): the
      counter reaches `limit` after that block and after no earlier one. */
  predicate StopsAt(bs: seq<Block>, threshold: int, limit: int, n: int)
  {
    && 1 <= n <= |bs|
    && SilentCount(bs[..n], threshold) >= limit
    && forall m :: 1 <= m < n ==> SilentCount(bs[..m], threshold) < limit
  }

  /** The counter is exactly the length of the run of quiet blocks at the end
      of what has been consumed: those blocks are all quiet, and the block
      before them (if any) is not. */
  lemma {:induction false} SilentCountIsTrailingRun(bs: seq<Block>, threshold: int)
    ensures SilentCount(bs, threshold) <= |bs|
    ensures QuietRun(bs, |bs| - SilentCount(bs, threshold), |bs|, threshold)
    ensures SilentCount(bs, threshold) < |bs| ==> !Quiet(bs[|bs| - 1 - SilentCount(bs, threshold)], threshold)
  {
    if bs != [] {
      var prefix := bs[..|bs| - 1];
      SilentCountIsTrailingRun(prefix, threshold);
    }
  }

  /** One step of the counter: a quiet block adds exactly one, any other
      block resets it to 0. */
  lemma {:induction false} SilentCountStep(bs: seq<Block>, b: Block, threshold: int)
    ensures Quiet(b, threshold) ==> SilentCount(bs + [b], threshold) == SilentCount(bs, threshold) + 1
    ensures !Quiet(b, threshold) ==> SilentCount(bs + [b], threshold) == 0
  {
    assert (bs + [b])[..|bs|] == bs;
  }

  /** The counter has reached `limit` exactly when the last `limit` blocks
      consumed are all quiet. */
  lemma CountReachesLimit(bs: seq<Block>, threshold: int, limit: int)
    requires limit >= 1
    ensures SilentCount(bs, threshold) >= limit <==> QuietWindow(bs, |bs|, limit, threshold)
  {
    SilentCountIsTrailingRun(bs, threshold);
    var c := SilentCount(bs, threshold);
    if c < |bs| && QuietWindow(bs, |bs|, limit, threshold) {
      var before := |bs| - 1 - c;
      assert !Quiet(bs[before], threshold);
      assert before < |bs| - limit;
    }
  }

  /** Stopping, restated without the counter: the loop breaks on block `n`
      exactly when the `limit` blocks ending there are all quiet and no
      earlier position ends such a window. So it breaks after exactly
      `limit` consecutive quiet blocks, and never earlier. */
  lemma StopsAtIff(bs: seq<Block>, threshold: int, limit: int, n: int)
    requires limit >= 1
    ensures StopsAt(bs, threshold, limit, n) <==>
              && 1 <= n
              && QuietWindow(bs, n, limit, threshold)
              && forall m :: 1 <= m < n ==> !QuietWindow(bs, m, limit, threshold)
  {
    forall m | 1 <= m <= n && m <= |bs|
      ensures SilentCount(bs[..m], threshold) >= limit <==> QuietWindow(bs, m, limit, threshold)
    {
      CountReachesLimit(bs[..m], threshold, limit);
      if m >= limit {
        assert QuietRun(bs[..m], m - limit, m, threshold) <==> QuietRun(bs, m - limit, m, threshold);
      }
    }
  }

  /** A stream that is quiet from its first block stops after exactly
      `limit` blocks: no special case for "no speech yet". */
  lemma QuietFromStartStopsAtLimit(bs: seq<Block>, threshold: int, limit: int)
    requires 1 <= limit <= |bs|
    requires QuietRun(bs, 0, limit, threshold)
    ensures StopsAt(bs, threshold, limit, limit)
  {
    CountReachesLimit(bs[..limit], threshold, limit);
    assert QuietRun(bs[..limit], 0, limit, threshold);
    forall m | 1 <= m < limit
      ensures SilentCount(bs[..m], threshold) < limit
    {
      SilentCountIsTrailingRun(bs[..m], threshold);
    }
  }

  /** Speech, then silence: after `speech` loud blocks, a run of `limit`
      quiet blocks stops the loop on the last block of that run, so on
      block `speech + limit` and not before. */
  lemma SpeechThenSilenceStops(bs: seq<Block>, threshold: int, limit: int, speech: nat)
    requires limit >= 1 && speech + limit <= |bs|
    requires forall i :: 0 <= i < speech ==> !Quiet(bs[i], threshold)
    requires QuietRun(bs, speech, speech + limit, threshold)
    ensures StopsAt(bs, threshold, limit, speech + limit)
  {
    forall m | 1 <= m < speech + limit
      ensures !QuietWindow(bs, m, limit, threshold)
    {
      if limit <= m {
        assert !Quiet(bs[m - limit], threshold);
      }
    }
    StopsAtIff(bs, threshold, limit, speech + limit);
  }

  /** With the source's settings (threshold 100, 14 blocks): five voiced
      blocks, then fourteen silent ones, stop the recording on block 19. */
  lemma FiveVoicedThenFourteenSilent(bs: seq<Block>)
    requires |bs| >= 19
    requires forall i :: 0 <= i < 5 ==> bs[i].energy >= SilenceThreshold
    requires forall i :: 5 <= i < 19 ==> bs[i].energy < SilenceThreshold
    ensures StopsAt(bs, SilenceThreshold, MaxSilenceBlocks, 19)
  {
    SpeechThenSilenceStops(bs, SilenceThreshold, MaxSilenceBlocks, 5);
  }

  /** A stream of blocks none of which is quiet keeps the counter at 0, so
      the loop never stops on it. */
  lemma LoudStreamNeverStops(bs: seq<Block>, threshold: int, limit: int)
    requires limit >= 1
    requires forall i :: 0 <= i < |bs| ==> !Quiet(bs[i], threshold)
    ensures forall m :: 1 <= m <= |bs| ==> SilentCount(bs[..m], threshold) == 0
    ensures forall n :: !StopsAt(bs, threshold, limit, n)
  {
    forall m | 1 <= m <= |bs|
      ensures SilentCount(bs[..m], threshold) == 0
    {
      assert bs[..m][m - 1] == bs[m - 1];
    }
  }

  /** The audio written after the loop: all chunks, one after the other
      (`np.concatenate(audio_chunks)`). */
  function Concatenate(chunks: seq<Block>): seq<int>
    decreases |chunks|
  {
    if chunks == [] then [] else Concatenate(chunks[..|chunks| - 1]) + chunks[|chunks| - 1].samples
  }

  lemma {:induction false} ConcatenateAppend(a: seq<Block>, b: seq<Block>)
    ensures Concatenate(a + b) == Concatenate(a) + Concatenate(b)
    decreases |b|
  {
    if b != [] {
      var last := b[|b| - 1];
      assert (a + b)[..|a + b| - 1] == a + b[..|b| - 1];
      assert (a + b)[|a + b| - 1] == last;
      ConcatenateAppend(a, b[..|b| - 1]);
      calc {
        Concatenate(a + b);
        Concatenate(a + b[..|b| - 1]) + last.samples;
        Concatenate(a) + Concatenate(b[..|b| - 1]) + last.samples;
        Concatenate(a) + Concatenate(b);
      }
    } else {
      assert a + b == a;
    }
  }

  /** No loss, no reordering: sample `j` of chunk `k` sits in the recorded
      audio right after the samples of the chunks before it. */
  lemma ConcatenateAt(chunks: seq<Block>, k: int, j: int)
    requires 0 <= k < |chunks|
    requires 0 <= j < |chunks[k].samples|
    ensures |Concatenate(chunks[..k])| + j < |Concatenate(chunks)|
    ensures Concatenate(chunks)[|Concatenate(chunks[..k])| + j] == chunks[k].samples[j]
  {
    assert chunks == chunks[..k] + [chunks[k]] + chunks[k + 1..];
    ConcatenateAppend(chunks[..k] + [chunks[k]], chunks[k + 1..]);
    ConcatenateAppend(chunks[..k], [chunks[k]]);
    assert Concatenate([chunks[k]]) == chunks[k].samples by {
      assert [chunks[k]][..0] == [];
    }
  }

  /** The capture loop. `chunks` are the blocks consumed, `stopped` says
      whether the loop broke on silence, and `audio` is the recording that
      is written to disk once it has. */
  method RecordUntilSilence(stream: seq<Block>, threshold: int, limit: int)
    returns (chunks: seq<Block>, stopped: bool, audio: seq<int>)
    ensures |chunks| <= |stream| && chunks == stream[..|chunks|]
    ensures stopped ==> StopsAt(stream, threshold, limit, |chunks|)
    ensures !stopped ==> chunks == stream
    ensures !stopped ==> forall m :: 1 <= m <= |stream| ==> SilentCount(stream[..m], threshold) < limit
    ensures audio == Concatenate(chunks)
  {
    chunks := [];
    var silentBlocks := 0;
    stopped := false;
    var i := 0;
    while i < |stream|
      invariant 0 <= i <= |stream|
      invariant chunks == stream[..i]
      invariant silentBlocks == SilentCount(stream[..i], threshold)
      invariant forall m :: 1 <= m <= i ==> SilentCount(stream[..m], threshold) < limit
    {
      var block := stream[i];
      chunks := chunks + [block];
      assert stream[..i + 1][..i] == stream[..i];
      i := i + 1;
      if block.energy < threshold {
        silentBlocks := silentBlocks + 1;
      } else {
        silentBlocks := 0;
      }
      if silentBlocks >= limit {
        stopped := true;
        break;
      }
    }
    audio := Concatenate(chunks);
  }
}
