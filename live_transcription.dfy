/**
  Time-based, silence-terminated live transcription (`run_transcription` in
  test2.py).

  Each block taken from the audio queue first passes a silence check: a
  quiet block starts a silence timer when none is running, and breaks the
  loop when the timer has run strictly longer than the silence duration; a
  loud block clears the timer. A block that does not break the loop is then
  handed to the incremental recognizer, which either commits a text (kept
  in `results` when non-empty) or offers a partial hypothesis (only shown).
  After the loop the recognizer's final text, when non-empty, is kept too,
  and the transcript file receives `results` joined by newlines. An
  exception anywhere in the loop ends the process before anything is
  written.

  The queue, the clock and the recognizer are inputs: one `Tick` per block
  gives its volume, the clock reading the loop would take for it, and what
  the recognizer does with it.
*/
module LiveTranscription {
  import opened Optional

  /** `silence_threshold` of the source (mean absolute amplitude). */
  const SilenceThreshold: int := 500
  /** `silence_duration` of the source, 1.5 s, with the clock read in milliseconds. */
  const SilenceDuration: int := 1500

  /** What the recognizer makes of one block: `AcceptWaveform` true and the
      text of `Result()`, `AcceptWaveform` false and the text of
      `PartialResult()`, or an exception. */
  datatype Recognition = Committed(text: string) | Partial(text: string) | Fault(message: string)

  /** One block from the queue: its volume (`np.abs(audio).mean()` as an
      integer), the clock reading `time.time()` gives while it is checked,
      and the recognizer's answer to it. */
  datatype Tick = Tick(volume: int, now: int, recognition: Recognition)

  /** What `FinalResult()` gives once the loop has stopped. */
  datatype FinalResult = FinalText(text: string) | FinalFault(message: string)

  /** How a run ends: the transcript file is written with `transcript`; the
      process exits on an exception with `error` and writes nothing; or the
      input ran out while the loop was still waiting for blocks. */
  datatype RunOutcome = Saved(transcript: string) | Exited(error: string) | Listening

  predicate Quiet(t: Tick, threshold: int)
  {
    t.volume < threshold
  }

  // ----- the silence timer -----

  /** `silence_start_time` after the blocks `ts` have each passed the silence
      check without breaking the loop, starting from `start`. */
  function SilenceStartAfter(start: Option<int>, ts: seq<Tick>, threshold: int): Option<int>
    decreases |ts|
  {
    if ts == [] then start
    else NextSilenceStart(SilenceStartAfter(start, ts[..|ts| - 1], threshold), ts[|ts| - 1], threshold)
  }

  /** The timer after block `t` has passed the check: cleared by a loud
      block, started by a quiet one when none is running, kept otherwise. */
  function NextSilenceStart(start: Option<int>, t: Tick, threshold: int): Option<int>
  {
    if !Quiet(t, threshold) then None
    else if start.None? then Some(t.now)
    else start
  }

  /** The silence check breaks the loop on block `i`, the blocks before it
      having passed: it is quiet, a silence timer is running, and strictly
      more than `duration` has elapsed on it. */
  predicate BreaksOn(start: Option<int>, ts: seq<Tick>, i: int, threshold: int, duration: int)
    requires 0 <= i < |ts|
  {
    && Quiet(ts[i], threshold)
    && SilenceStartAfter(start, ts[..i], threshold).Some?
    && ts[i].now - SilenceStartAfter(start, ts[..i], threshold).value > duration
  }

  /** Blocks `lo` (inclusive) to `hi` (exclusive) of `ts` are all quiet. */
  predicate QuietRun(ts: seq<Tick>, lo: int, hi: int, threshold: int)
    requires 0 <= lo <= hi <= |ts|
  {
    forall i :: lo <= i < hi ==> Quiet(ts[i], threshold)
  }

  /** The timer holds the clock reading of the first block of the trailing
      run of quiet blocks, or nothing when the last block was loud. Here `k`
      is the length of that run: the last `k` blocks are quiet and the one
      before them, if any, is loud. A run reaching back to the start keeps a
      timer that was already running. */
  lemma {:induction false} SilenceStartIsRunStart(start: Option<int>, ts: seq<Tick>, threshold: int, k: nat)
    requires k <= |ts| && QuietRun(ts, |ts| - k, |ts|, threshold)
    requires k < |ts| ==> !Quiet(ts[|ts| - 1 - k], threshold)
    ensures SilenceStartAfter(start, ts, threshold) ==
              if k < |ts| then (if k == 0 then None else Some(ts[|ts| - k].now))
              else if start.Some? || ts == [] then start
              else Some(ts[0].now)
    decreases |ts|
  {
    if k > 0 {
      var prefix := ts[..|ts| - 1];
      SilenceStartIsRunStart(start, prefix, threshold, k - 1);
    }
  }

  /** The stopping rule without the timer, from a run with no timer at the
      start: let block `j` begin the run of quiet blocks just before block
      `i`. Then block `i` breaks the loop exactly when it is quiet, the run
      is not empty (the block that starts a silence never breaks), and
      block `i` is read strictly more than `duration` after block `j`. */
  lemma BreaksOnIff(ts: seq<Tick>, i: int, j: int, threshold: int, duration: int)
    requires 0 <= j <= i < |ts|
    requires QuietRun(ts, j, i, threshold)
    requires j > 0 ==> !Quiet(ts[j - 1], threshold)
    ensures BreaksOn(None, ts, i, threshold, duration) <==>
              Quiet(ts[i], threshold) && j < i && ts[i].now - ts[j].now > duration
  {
    SilenceStartIsRunStart(None, ts[..i], threshold, i - j);
  }

  /** With the source's settings (threshold 500, duration 1.5 s), five
      quiet blocks read 0.5 s apart: the block read exactly 1.5 s after the
      silence began does not stop the loop, the next one does. */
  lemma SilenceOfExactlyTheDurationDoesNotStop(r: Recognition)
    ensures var ts := [Tick(0, 0, r), Tick(0, 500, r), Tick(0, 1000, r), Tick(0, 1500, r), Tick(0, 2000, r)];
            && !BreaksOn(None, ts, 3, SilenceThreshold, SilenceDuration)
            && BreaksOn(None, ts, 4, SilenceThreshold, SilenceDuration)
  {
    var ts := [Tick(0, 0, r), Tick(0, 500, r), Tick(0, 1000, r), Tick(0, 1500, r), Tick(0, 2000, r)];
    BreaksOnIff(ts, 3, 0, SilenceThreshold, SilenceDuration);
    BreaksOnIff(ts, 4, 0, SilenceThreshold, SilenceDuration);
  }

  // ----- the results list -----

  /** What `results` gains from one recognizer answer. */
  function Kept(r: Recognition): seq<string>
  {
    match r
    case Committed(text) => if text == "" then [] else [text]
    case _ => []
  }

  /** The committed, non-empty texts of the blocks `ts`, in arrival order. */
  function CommittedTexts(ts: seq<Tick>): seq<string>
    decreases |ts|
  {
    if ts == [] then [] else CommittedTexts(ts[..|ts| - 1]) + Kept(ts[|ts| - 1].recognition)
  }

  lemma {:induction false} CommittedTextsAppend(a: seq<Tick>, b: seq<Tick>)
    ensures CommittedTexts(a + b) == CommittedTexts(a) + CommittedTexts(b)
    decreases |b|
  {
    if b == [] {
      assert a + b == a;
    } else {
      assert (a + b)[..|a + b| - 1] == a + b[..|b| - 1];
      CommittedTextsAppend(a, b[..|b| - 1]);
    }
  }

  /** Every kept text is non-empty and was committed by some block; partial
      hypotheses never reach `results`. */
  lemma {:induction false} CommittedTextsSound(ts: seq<Tick>)
    ensures forall k :: 0 <= k < |CommittedTexts(ts)| ==> CommittedTexts(ts)[k] != ""
    ensures forall x :: x in CommittedTexts(ts) ==> exists i :: 0 <= i < |ts| && ts[i].recognition == Committed(x)
    decreases |ts|
  {
    if ts != [] {
      var prefix := ts[..|ts| - 1];
      CommittedTextsSound(prefix);
      forall x | x in CommittedTexts(ts)
        ensures exists i :: 0 <= i < |ts| && ts[i].recognition == Committed(x)
      {
        if x in CommittedTexts(prefix) {
          var i :| 0 <= i < |prefix| && prefix[i].recognition == Committed(x);
          assert ts[i] == prefix[i];
        } else {
          assert ts[|ts| - 1].recognition == Committed(x);
        }
      }
    }
  }

  /** Every non-empty committed text is kept. */
  lemma CommittedTextsComplete(ts: seq<Tick>, i: int)
    requires 0 <= i < |ts| && ts[i].recognition.Committed? && ts[i].recognition.text != ""
    ensures ts[i].recognition.text in CommittedTexts(ts)
  {
    assert ts == ts[..i] + [ts[i]] + ts[i + 1..];
    CommittedTextsAppend(ts[..i] + [ts[i]], ts[i + 1..]);
    CommittedTextsAppend(ts[..i], [ts[i]]);
    assert [ts[i]][..0] == [];
  }

  // ----- '\n'.join(results) -----

  /** `"\n".join(lines)`. */
  function JoinLines(lines: seq<string>): string
    decreases |lines|
  {
    if lines == [] then ""
    else if |lines| == 1 then lines[0]
    else lines[0] + "\n" + JoinLines(lines[1..])
  }

  /** Position of the first newline in `s`, or `|s|`. */
  function NewlineIndex(s: string): (i: nat)
    ensures i <= |s| && '\n' !in s[..i]
    ensures i < |s| ==> s[i] == '\n'
  {
    if s == [] || s[0] == '\n' then 0 else 1 + NewlineIndex(s[1..])
  }

  /** `s.split("\n")`. */
  function SplitLines(s: string): (r: seq<string>)
    ensures r != []
    decreases |s|
  {
    var i := NewlineIndex(s);
    if i == |s| then [s] else [s[..i]] + SplitLines(s[i + 1..])
  }

  lemma {:induction false} NewlineIndexAfter(a: string, b: string)
    requires '\n' !in a
    ensures NewlineIndex(a + "\n" + b) == |a|
  {
    if a != [] {
      assert (a + "\n" + b)[1..] == a[1..] + "\n" + b;
      NewlineIndexAfter(a[1..], b);
    }
  }

  /** The saved transcript splits back into the kept texts, one per line,
      as long as none of them holds a newline itself. */
  lemma {:induction false} SplitJoinLines(lines: seq<string>)
    requires lines != []
    requires forall k :: 0 <= k < |lines| ==> '\n' !in lines[k]
    ensures SplitLines(JoinLines(lines)) == lines
    decreases |lines|
  {
    if |lines| == 1 {
      assert NewlineIndex(lines[0]) == |lines[0]| by {
        assert lines[0][..|lines[0]|] == lines[0];
      }
    } else {
      var rest := JoinLines(lines[1..]);
      NewlineIndexAfter(lines[0], rest);
      var s := lines[0] + "\n" + rest;
      assert s[..|lines[0]|] == lines[0];
      assert s[|lines[0]| + 1..] == rest;
      SplitJoinLines(lines[1..]);
      assert lines == [lines[0]] + lines[1..];
    }
  }

  /** The transcript ends with the last kept text: no trailing newline is
      added after it. */
  lemma {:induction false} JoinLinesEnd(lines: seq<string>)
    requires lines != []
    ensures |JoinLines(lines)| >= |lines[|lines| - 1]|
    ensures JoinLines(lines)[|JoinLines(lines)| - |lines[|lines| - 1]|..] == lines[|lines| - 1]
    decreases |lines|
  {
    if |lines| > 1 {
      JoinLinesEnd(lines[1..]);
      var rest := JoinLines(lines[1..]);
      var s := lines[0] + "\n" + rest;
      var last := lines[|lines| - 1];
      assert s[|s| - |last|..] == rest[|rest| - |last|..];
    }
  }

  /** One more block read: how the timer and the kept texts of a prefix grow. */
  lemma PrefixStep(start: Option<int>, ts: seq<Tick>, i: int, threshold: int)
    requires 0 <= i < |ts|
    ensures SilenceStartAfter(start, ts[..i + 1], threshold) == NextSilenceStart(SilenceStartAfter(start, ts[..i], threshold), ts[i], threshold)
    ensures CommittedTexts(ts[..i + 1]) == CommittedTexts(ts[..i]) + Kept(ts[i].recognition)
  {
    assert ts[..i + 1][..i] == ts[..i];
  }

  // ----- the loop -----

  /** The state `run_transcription` keeps in module globals. */
  class Transcriber {
    const threshold: int
    const duration: int
    /** `silence_start_time`. */
    var silenceStart: Option<int>
    /** `results`. */
    var results: seq<string>

    constructor (threshold: int, duration: int)
      ensures this.threshold == threshold && this.duration == duration
      ensures silenceStart == None && results == []
    {
      this.threshold := threshold;
      this.duration := duration;
      silenceStart := None;
      results := [];
    }

    /** The silence check on one block. */
    method CheckSilence(t: Tick) returns (stop: bool)
      modifies this`silenceStart
      ensures stop == (Quiet(t, threshold) && old(silenceStart).Some? && t.now - old(silenceStart).value > duration)
      ensures silenceStart == if stop then old(silenceStart) else NextSilenceStart(old(silenceStart), t, threshold)
    {
      stop := false;
      if t.volume < threshold {
        if silenceStart == None {
          silenceStart := Some(t.now);
        } else if t.now - silenceStart.value > duration {
          stop := true;
        }
      } else {
        silenceStart := None;
      }
    }

    /** Hands one block to the recognizer; `fault` is the exception it raised, if any. */
    method Recognize(t: Tick) returns (fault: Option<string>)
      modifies this`results
      ensures fault == if t.recognition.Fault? then Some(t.recognition.message) else None
      ensures results == old(results) + Kept(t.recognition)
    {
      fault := None;
      match t.recognition {
        case Committed(text) =>
          if text != "" {
            results := results + [text];
          }
        case Partial(_) =>
        case Fault(message) =>
          fault := Some(message);
      }
    }

    /** The `while True` loop over `ticks`: it ends when a block breaks it
        on silence (`stopped`), when the recognizer raises (`fault`), or when
        the input runs out. `read` is the number of blocks taken from the
        queue. */
    method Listen(ticks: seq<Tick>) returns (stopped: bool, fault: Option<string>, read: nat)
      modifies this`silenceStart, this`results
      ensures read <= |ticks| && !(stopped && fault.Some?)
      ensures silenceStart == SilenceStartAfter(old(silenceStart), ticks[..read], threshold)
      ensures forall i :: 0 <= i < read - 1 ==>
                !BreaksOn(old(silenceStart), ticks, i, threshold, duration) && !ticks[i].recognition.Fault?
      ensures !stopped && fault.None? ==>
                && read == |ticks|
                && (read > 0 ==> !BreaksOn(old(silenceStart), ticks, read - 1, threshold, duration))
                && (read > 0 ==> !ticks[read - 1].recognition.Fault?)
                && results == old(results) + CommittedTexts(ticks)
      ensures stopped ==>
                && read > 0
                && BreaksOn(old(silenceStart), ticks, read - 1, threshold, duration)
                && results == old(results) + CommittedTexts(ticks[..read - 1])
      ensures fault.Some? ==>
                && read > 0
                && !BreaksOn(old(silenceStart), ticks, read - 1, threshold, duration)
                && ticks[read - 1].recognition == Fault(fault.value)
                && results == old(results) + CommittedTexts(ticks[..read])
    {
      ghost var start0 := silenceStart;
      ghost var results0 := results;
      var i := 0;
      stopped, fault := false, None;
      while i < |ticks|
        invariant 0 <= i <= |ticks|
        invariant !stopped && fault.None?
        invariant silenceStart == SilenceStartAfter(start0, ticks[..i], threshold)
        invariant results == results0 + CommittedTexts(ticks[..i])
        invariant forall k :: 0 <= k < i ==> !BreaksOn(start0, ticks, k, threshold, duration) && !ticks[k].recognition.Fault?
      {
        var t := ticks[i];
        PrefixStep(start0, ticks, i, threshold);
        stopped := CheckSilence(t);
        if stopped {
          read := i + 1;
          return;
        }
        fault := Recognize(t);
        if fault.Some? {
          read := i + 1;
          return;
        }
        i := i + 1;
      }
      assert ticks[..i] == ticks;
      read := i;
    }

    /** Runs the loop over `ticks` and then, if it broke on silence, reads
        the final result and saves the transcript. `read` is the number of
        blocks taken from the queue. */
    method Run(ticks: seq<Tick>, final: FinalResult) returns (outcome: RunOutcome, read: nat)
      modifies this
      ensures read <= |ticks|
      // the silence timer has seen every block read
      ensures silenceStart == SilenceStartAfter(old(silenceStart), ticks[..read], threshold)
      // no block before the last one read broke the loop or raised
      ensures forall i :: 0 <= i < read - 1 ==>
                !BreaksOn(old(silenceStart), ticks, i, threshold, duration) && !ticks[i].recognition.Fault?
      ensures outcome.Listening? ==>
                && read == |ticks|
                && (read > 0 ==> !BreaksOn(old(silenceStart), ticks, read - 1, threshold, duration))
                && (read > 0 ==> !ticks[read - 1].recognition.Fault?)
                && results == old(results) + CommittedTexts(ticks)
      ensures !outcome.Listening? ==> read > 0
      ensures outcome.Saved? ==>
                && BreaksOn(old(silenceStart), ticks, read - 1, threshold, duration)
                && final.FinalText?
                && results == old(results) + CommittedTexts(ticks[..read - 1]) + (if final.text == "" then [] else [final.text])
                && outcome.transcript == JoinLines(results)
      ensures outcome.Exited? ==>
                if BreaksOn(old(silenceStart), ticks, read - 1, threshold, duration)
                then
                  && final.FinalFault? && outcome.error == final.message
                  && results == old(results) + CommittedTexts(ticks[..read - 1])
                else
                  && ticks[read - 1].recognition.Fault? && outcome.error == ticks[read - 1].recognition.message
                  && results == old(results) + CommittedTexts(ticks[..read])
    {
      var stopped, fault;
      stopped, fault, read := Listen(ticks);
      if fault.Some? {
        outcome := Exited(fault.value);
      } else if !stopped {
        outcome := Listening;
      } else {
        match final {
          case FinalText(text) =>
            if text != "" {
              results := results + [text];
            }
            outcome := Saved(JoinLines(results));
          case FinalFault(message) =>
            outcome := Exited(message);
        }
      }
    }
  }
}
