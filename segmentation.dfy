/** The voice-activity segmentation state machine of the audio handler: one
    audio block per callback, three fields (`is_speaking`, `silence_counter`,
    `speech_buffer`) and an output queue of completed utterances. The VAD
    model is an oracle that supplies each block's speech probability. */
module Segmentation {
  import opened Audio

  /** A block is speech when its probability is strictly above this. */
  const SpeechThreshold: real := 0.5

  /** An utterance ends when the silence counter grows past this limit,
      that is on the sixth consecutive non-speech block. */
  const SilenceLimit: nat := 5

  predicate IsSpeech(speechProb: real)
  {
    speechProb > SpeechThreshold
  }

  /** The segmentation fields of the handler. */
  datatype State = State(isSpeaking: bool, silenceCounter: nat, speechBuffer: seq<Block>)

  /** The state a fresh handler starts in. */
  const Idle := State(false, 0, [])

  /** Holds between callbacks: idle means nothing is buffered and nothing is
      counted; speaking means at least one block is buffered and fewer than
      the limit-exceeding number of silent blocks have been seen. */
  predicate Inv(s: State)
  {
    if s.isSpeaking then s.speechBuffer != [] && s.silenceCounter <= SilenceLimit
    else s.speechBuffer == [] && s.silenceCounter == 0
  }

  /** One block with the oracle's verdict on it. */
  datatype Observation = Observation(block: Block, speech: bool)

  /** The next state and the block list handed to the queue, if any. */
  datatype StepResult = StepResult(next: State, flushed: Option<seq<Block>>)

  /** One callback, as a function of the state, the block and the verdict. */
  function Step(s: State, block: Block, speech: bool): (r: StepResult)
    ensures Inv(s) ==> Inv(r.next)
    ensures Inv(s) ==> (r.flushed.Some? <==> s.isSpeaking && !speech && s.silenceCounter == SilenceLimit)
    ensures r.flushed.Some? ==> r.flushed.value == s.speechBuffer && r.flushed.value != [] && r.next == Idle
    ensures speech ==> r.next.isSpeaking && r.next.silenceCounter == 0 && r.flushed.None?
    ensures !speech ==> r.next.speechBuffer == [] || r.next.speechBuffer == s.speechBuffer
  {
    if speech then
      var buffer := if s.isSpeaking then s.speechBuffer else [];
      StepResult(State(true, 0, buffer + [block]), None)
    else if s.isSpeaking then
      var counter := s.silenceCounter + 1;
      if counter > SilenceLimit then
        StepResult(Idle, if s.speechBuffer != [] then Some(s.speechBuffer) else None)
      else
        StepResult(State(true, counter, s.speechBuffer), None)
    else
      StepResult(s, None)
  }

  function Flushed(f: Option<seq<Block>>): seq<seq<Block>>
  {
    if f.Some? then [f.value] else []
  }

  /** The final state and the utterances (as block lists) after feeding the
      observations one by one. */
  datatype Trace = Trace(final: State, utterances: seq<seq<Block>>)

  function Run(s: State, obs: seq<Observation>): (r: Trace)
    ensures Inv(s) ==> Inv(r.final)
    ensures |r.utterances| <= |obs|
  {
    if obs == [] then Trace(s, [])
    else
      var prev := Run(s, obs[..|obs| - 1]);
      var o := obs[|obs| - 1];
      var st := Step(prev.final, o.block, o.speech);
      Trace(st.next, prev.utterances + Flushed(st.flushed))
  }

  /** No utterance handed over is empty. */
  lemma {:induction false} UtterancesNonEmpty(s: State, obs: seq<Observation>)
    requires Inv(s)
    ensures forall u | u in Run(s, obs).utterances :: u != []
    decreases |obs|
  {
    if obs != [] {
      UtterancesNonEmpty(s, obs[..|obs| - 1]);
    }
  }

  /** The blocks the oracle judged to be speech, in arrival order. */
  function SpeechBlocks(obs: seq<Observation>): seq<Block>
  {
    if obs == [] then []
    else
      var o := obs[|obs| - 1];
      SpeechBlocks(obs[..|obs| - 1]) + (if o.speech then [o.block] else [])
  }

  /** The chunks put on the audio queue for a list of utterances. */
  function Chunks(utterances: seq<seq<Block>>): (r: seq<Block>)
    ensures |r| == |utterances|
  {
    if utterances == [] then []
    else Chunks(utterances[..|utterances| - 1]) + [Concat(utterances[|utterances| - 1])]
  }

  /** Chunk i is utterance i's blocks concatenated. */
  lemma {:induction false} ChunkIsUtterance(utterances: seq<seq<Block>>, i: nat)
    requires i < |utterances|
    ensures Chunks(utterances)[i] == Concat(utterances[i])
    decreases |utterances|
  {
    var n := |utterances| - 1;
    if i < n {
      ChunkIsUtterance(utterances[..n], i);
    }
  }

  lemma {:induction false} ChunksAppend(a: seq<seq<Block>>, b: seq<seq<Block>>)
    ensures Chunks(a + b) == Chunks(a) + Chunks(b)
    decreases |b|
  {
    if b == [] {
      assert a + b == a;
    } else {
      var n := |b| - 1;
      assert (a + b)[..|a + b| - 1] == a + b[..n];
      assert (a + b)[|a + b| - 1] == b[n];
      ChunksAppend(a, b[..n]);
      Regroup(Chunks(a), Chunks(b[..n]), [Concat(b[n])]);
    }
  }

  /** The chunk a step puts on the queue, if any. */
  function Handed(f: Option<seq<Block>>): seq<Block>
  {
    if f.Some? then [Concat(f.value)] else []
  }

  /** The handler's state is the machine run over the history, and the queue
      holds the chunks of its utterances after what was there at the start. */
  ghost predicate Consistent(history: seq<Observation>, state: State, queueAtStart: seq<Block>, queue: seq<Block>)
  {
    && Inv(state)
    && Run(Idle, history).final == state
    && queue == queueAtStart + Chunks(Run(Idle, history).utterances)
  }

  /** Feeding one more observation extends the trace by one step, and the
      queue by the chunk of what that step hands over. */
  lemma QueueStep(history: seq<Observation>, o: Observation, state: State, queueAtStart: seq<Block>, queue: seq<Block>)
    requires Consistent(history, state, queueAtStart, queue)
    ensures var st := Step(state, o.block, o.speech);
            Consistent(history + [o], st.next, queueAtStart, queue + Handed(st.flushed))
  {
    var before := Run(Idle, history);
    var st := Step(before.final, o.block, o.speech);
    RunSnoc(Idle, history, o);
    ChunksAppend(before.utterances, Flushed(st.flushed));
    if st.flushed.Some? {
      assert [st.flushed.value][..0] == [];
    }
    assert Chunks(Flushed(st.flushed)) == Handed(st.flushed);
    Regroup(queueAtStart, Chunks(before.utterances), Handed(st.flushed));
  }

  predicate AllSilent(obs: seq<Observation>)
  {
    forall i | 0 <= i < |obs| :: !obs[i].speech
  }

  predicate AllSpeech(obs: seq<Observation>)
  {
    forall i | 0 <= i < |obs| :: obs[i].speech
  }

  /** Feeding two lists one after the other is feeding their concatenation. */
  lemma {:induction false} RunAppend(s: State, a: seq<Observation>, b: seq<Observation>)
    ensures var ra := Run(s, a);
            var rb := Run(ra.final, b);
            Run(s, a + b) == Trace(rb.final, ra.utterances + rb.utterances)
    decreases |b|
  {
    if b == [] {
      assert a + b == a;
    } else {
      var b' := b[..|b| - 1];
      assert (a + b)[..|a + b| - 1] == a + b';
      assert (a + b)[|a + b| - 1] == b[|b| - 1];
      RunAppend(s, a, b');
    }
  }

  /** Every speech block ends up exactly once, in arrival order, either in a
      completed utterance or in the current buffer; no silent block is ever
      buffered. */
  lemma {:induction false} RunConservesSpeech(s: State, obs: seq<Observation>)
    requires Inv(s)
    ensures var r := Run(s, obs);
            Concat(r.utterances) + r.final.speechBuffer == s.speechBuffer + SpeechBlocks(obs)
    decreases |obs|
  {
    if obs != [] {
      var init := obs[..|obs| - 1];
      var o := obs[|obs| - 1];
      var prev := Run(s, init);
      var st := Step(prev.final, o.block, o.speech);
      var heard: seq<Block> := if o.speech then [o.block] else [];
      RunConservesSpeech(s, init);
      StepConservesSpeech(prev.final, o.block, o.speech);
      ConcatAppend(prev.utterances, Flushed(st.flushed));
      calc {
        Concat(Run(s, obs).utterances) + Run(s, obs).final.speechBuffer;
        (Concat(prev.utterances) + Concat(Flushed(st.flushed))) + st.next.speechBuffer;
        { Regroup(Concat(prev.utterances), Concat(Flushed(st.flushed)), st.next.speechBuffer); }
        Concat(prev.utterances) + (prev.final.speechBuffer + heard);
        { Regroup(Concat(prev.utterances), prev.final.speechBuffer, heard); }
        (s.speechBuffer + SpeechBlocks(init)) + heard;
        { Regroup(s.speechBuffer, SpeechBlocks(init), heard); }
        s.speechBuffer + SpeechBlocks(obs);
      }
    }
  }

  /** One callback keeps every speech block: what it hands over followed by
      its new buffer is the old buffer followed by the block, if speech. */
  lemma StepConservesSpeech(s: State, block: Block, speech: bool)
    requires Inv(s)
    ensures var st := Step(s, block, speech);
            Concat(Flushed(st.flushed)) + st.next.speechBuffer
            == s.speechBuffer + (if speech then [block] else [])
  {
    var st := Step(s, block, speech);
    if st.flushed.Some? {
      assert Concat([s.speechBuffer]) == s.speechBuffer by {
        assert [s.speechBuffer][..0] == [];
      }
    }
  }

  /** Feeding one more observation is one more step. */
  lemma RunSnoc(s: State, obs: seq<Observation>, o: Observation)
    ensures var prev := Run(s, obs);
            var st := Step(prev.final, o.block, o.speech);
            Run(s, obs + [o]) == Trace(st.next, prev.utterances + Flushed(st.flushed))
  {
    assert (obs + [o])[..|obs|] == obs;
  }

  /** A run of non-speech blocks: an idle machine stays idle; a speaking one
      only counts up to the limit, and the block that takes the count past it
      hands the whole buffer over as one utterance and returns to idle. */
  lemma {:induction false} TrailingSilence(s: State, obs: seq<Observation>)
    requires Inv(s)
    requires AllSilent(obs)
    ensures var r := Run(s, obs);
            if !s.isSpeaking then r == Trace(s, [])
            else if s.silenceCounter + |obs| <= SilenceLimit then
              r == Trace(State(true, s.silenceCounter + |obs|, s.speechBuffer), [])
            else r == Trace(Idle, [s.speechBuffer])
    decreases |obs|
  {
    if obs != [] {
      TrailingSilence(s, obs[..|obs| - 1]);
    }
  }

  /** A pause of at most the limit, followed by speech, does not split the
      utterance: the speech block joins the same buffer and the count resets. */
  lemma PauseDoesNotSplit(s: State, pause: seq<Observation>, block: Block)
    requires Inv(s) && s.isSpeaking
    requires AllSilent(pause)
    requires s.silenceCounter + |pause| <= SilenceLimit
    ensures Run(s, pause + [Observation(block, true)])
            == Trace(State(true, 0, s.speechBuffer + [block]), [])
  {
    assert (pause + [Observation(block, true)])[..|pause|] == pause;
    TrailingSilence(s, pause);
  }

  /** From idle, a non-empty run of speech blocks is buffered as it arrives. */
  lemma {:induction false} SpeechFromIdle(obs: seq<Observation>)
    requires obs != [] && AllSpeech(obs)
    ensures Run(Idle, obs) == Trace(State(true, 0, SpeechBlocks(obs)), [])
    decreases |obs|
  {
    var init := obs[..|obs| - 1];
    if init != [] {
      SpeechFromIdle(init);
    }
  }

  /** Speech observations for a list of blocks. */
  function Spoken(blocks: seq<Block>): (r: seq<Observation>)
    ensures |r| == |blocks| && AllSpeech(r)
    ensures SpeechBlocks(r) == blocks
  {
    if blocks == [] then []
    else
      var r := Spoken(blocks[..|blocks| - 1]) + [Observation(blocks[|blocks| - 1], true)];
      assert r[..|r| - 1] == Spoken(blocks[..|blocks| - 1]);
      r
  }

  /** Speech groups, each followed by its gap of observations. */
  function Interleave(groups: seq<seq<Block>>, gaps: seq<seq<Observation>>): seq<Observation>
    requires |groups| == |gaps|
  {
    if groups == [] then []
    else
      Interleave(groups[..|groups| - 1], gaps[..|gaps| - 1])
      + Spoken(groups[|groups| - 1]) + gaps[|gaps| - 1]
  }

  /** Groups of speech blocks separated by gaps of more than the limit of
      silent blocks come out as exactly those groups, one utterance each, in
      order, and the machine ends idle. */
  lemma {:induction false} SeparatedGroups(groups: seq<seq<Block>>, gaps: seq<seq<Observation>>)
    requires |groups| == |gaps|
    requires forall i | 0 <= i < |groups| :: groups[i] != []
    requires forall i | 0 <= i < |gaps| :: AllSilent(gaps[i]) && |gaps[i]| > SilenceLimit
    ensures Run(Idle, Interleave(groups, gaps)) == Trace(Idle, groups)
    decreases |groups|
  {
    if groups != [] {
      var n := |groups| - 1;
      var before := Interleave(groups[..n], gaps[..n]);
      var group := Spoken(groups[n]) + gaps[n];
      SeparatedGroups(groups[..n], gaps[..n]);
      OneGroup(groups[n], gaps[n]);
      Regroup(before, Spoken(groups[n]), gaps[n]);
      RunAppend(Idle, before, group);
      SplitLast(groups);
      calc {
        Run(Idle, Interleave(groups, gaps));
        Run(Idle, before + group);
        Trace(Idle, groups[..n] + [groups[n]]);
      }
    }
  }

  /** From idle, one group of speech blocks followed by more than the limit
      of silent blocks is one utterance, and the machine ends idle. */
  lemma OneGroup(g: seq<Block>, gap: seq<Observation>)
    requires g != [] && AllSilent(gap) && |gap| > SilenceLimit
    ensures Run(Idle, Spoken(g) + gap) == Trace(Idle, [g])
  {
    SpeechFromIdle(Spoken(g));
    TrailingSilence(State(true, 0, g), gap);
    RunAppend(Idle, Spoken(g), gap);
  }

  /** The unit test: two speech blocks then six silent ones give one chunk,
      the two speech blocks concatenated, and leave the machine idle. */
  lemma TwoSpeechBlocksThenSixSilent(speech: Block, quiet: seq<Observation>)
    requires |quiet| == 6 && AllSilent(quiet)
    ensures var r := Run(Idle, [Observation(speech, true), Observation(speech, true)] + quiet);
            && r.final == Idle && Chunks(r.utterances) == [speech + speech]
            && |Chunks(r.utterances)[0]| == 2 * |speech|
  {
    SpokenPair(speech, speech);
    OneGroup([speech, speech], quiet);
    ChunksSingle([speech, speech]);
    ConcatPair(speech, speech);
  }

  lemma SpokenPair(a: Block, b: Block)
    ensures Spoken([a, b]) == [Observation(a, true), Observation(b, true)]
  {
    assert [a, b][..1] == [a];
    assert [a][..0] == [];
  }

  lemma ChunksSingle(u: seq<Block>)
    ensures Chunks([u]) == [Concat(u)]
  {
    assert [u][..0] == [];
  }

  lemma ConcatPair(a: Block, b: Block)
    ensures Concat([a, b]) == a + b
  {
    assert [a, b][..1] == [a];
    assert [a][..0] == [];
  }

  /** A three-block pause inside speech does not split it, and the silent
      blocks are not part of the chunk: one speech block, three silent,
      one speech, six silent give the two speech blocks as one chunk. */
  lemma ShortPauseThenSilence(first: Block, second: Block, pause: seq<Observation>, quiet: seq<Observation>)
    requires |pause| == 3 && AllSilent(pause)
    requires |quiet| == 6 && AllSilent(quiet)
    ensures var r := Run(Idle, [Observation(first, true)] + pause + [Observation(second, true)] + quiet);
            r == Trace(Idle, [[first, second]])
  {
    var one := [Observation(first, true)];
    var resume := pause + [Observation(second, true)];
    var s1 := State(true, 0, [first]);
    assert Run(Idle, one) == Trace(s1, []) by {
      assert one[..0] == [];
    }
    PauseDoesNotSplit(s1, pause, second);
    assert [first] + [second] == [first, second];
    RunAppend(Idle, one, resume);
    assert Run(Idle, one + resume) == Trace(State(true, 0, [first, second]), []);
    TrailingSilence(State(true, 0, [first, second]), quiet);
    RunAppend(Idle, one + resume, quiet);
    assert one + pause + [Observation(second, true)] + quiet == (one + resume) + quiet;
  }

  /** Blocks that are all below the threshold never produce an utterance and
      never leave idle. */
  lemma NothingButSilence(obs: seq<Observation>)
    requires AllSilent(obs)
    ensures Run(Idle, obs) == Trace(Idle, [])
  {
    TrailingSilence(Idle, obs);
  }

  /** The audio handler: capture settings, the segmentation fields and the
      queue it puts completed utterances on. The queue is seen from the
      producer's side: the handler only ever appends to it. */
  class AudioHandler {
    const sampleRate: nat
    const blockSize: nat
    const channels: nat
    var audioQueue: seq<Block>
    var speechBuffer: seq<Block>
    var silenceCounter: nat
    var isSpeaking: bool

    /** What the queue held when the handler was created. */
    ghost const queueAtStart: seq<Block>
    /** Every block seen so far with the oracle's verdict on it. */
    ghost var history: seq<Observation>

    function Current(): State
      reads this
    {
      State(isSpeaking, silenceCounter, speechBuffer)
    }

    /** The fields are those of the state machine run over the history, and
        the queue holds the chunks of its utterances after what was there. */
    ghost predicate Valid()
      reads this
    {
      Consistent(history, Current(), queueAtStart, audioQueue)
    }

    constructor (audioQueue: seq<Block>, sampleRate: nat := 16000, blockSize: nat := 512, channels: nat := 1)
      ensures Valid() && history == []
      ensures this.audioQueue == audioQueue && queueAtStart == audioQueue
      ensures this.sampleRate == sampleRate && this.blockSize == blockSize && this.channels == channels
      ensures !isSpeaking && silenceCounter == 0 && speechBuffer == []
    {
      this.audioQueue := audioQueue;
      this.sampleRate := sampleRate;
      this.blockSize := blockSize;
      this.channels := channels;
      speechBuffer := [];
      silenceCounter := 0;
      isSpeaking := false;
      queueAtStart := audioQueue;
      history := [];
    }

    /** One block from the capture stream with the VAD model's probability for it. */
    method AudioCallback(indata: Block, speechProb: real)
      requires Valid()
      modifies this
      ensures Valid()
      ensures history == old(history) + [Observation(indata, IsSpeech(speechProb))]
      ensures IsSpeech(speechProb) && !old(isSpeaking) ==>
                isSpeaking && speechBuffer == [indata] && silenceCounter == 0
                && audioQueue == old(audioQueue)
      ensures IsSpeech(speechProb) && old(isSpeaking) ==>
                isSpeaking && speechBuffer == old(speechBuffer) + [indata] && silenceCounter == 0
                && audioQueue == old(audioQueue)
      ensures !IsSpeech(speechProb) && !old(isSpeaking) ==>
                !isSpeaking && speechBuffer == old(speechBuffer) == [] && silenceCounter == old(silenceCounter) == 0
                && audioQueue == old(audioQueue)
      ensures !IsSpeech(speechProb) && old(isSpeaking) && old(silenceCounter) < SilenceLimit ==>
                isSpeaking && speechBuffer == old(speechBuffer) && silenceCounter == old(silenceCounter) + 1
                && audioQueue == old(audioQueue)
      ensures !IsSpeech(speechProb) && old(isSpeaking) && old(silenceCounter) == SilenceLimit ==>
                !isSpeaking && speechBuffer == [] && silenceCounter == 0
                && old(speechBuffer) != []
                && audioQueue == old(audioQueue) + [Concat(old(speechBuffer))]
    {
      ghost var o := Observation(indata, IsSpeech(speechProb));
      ghost var st := Step(Current(), indata, IsSpeech(speechProb));
      QueueStep(history, o, Current(), queueAtStart, audioQueue);
      var speaking, counter, buffer, queue := isSpeaking, silenceCounter, speechBuffer, audioQueue;
      if speechProb > SpeechThreshold {
        if !speaking {
          speaking := true;
          buffer := [];
        }
        buffer := buffer + [indata];
        counter := 0;
      } else {
        if speaking {
          counter := counter + 1;
          if counter > SilenceLimit {
            speaking := false;
            if buffer != [] {
              queue := queue + [Concat(buffer)];
            }
            buffer := [];
            counter := 0;
          }
        }
      }
      assert State(speaking, counter, buffer) == st.next;
      assert queue == audioQueue + Handed(st.flushed);
      isSpeaking, silenceCounter, speechBuffer, audioQueue := speaking, counter, buffer, queue;
      assert Current() == st.next;
      assert audioQueue == old(audioQueue) + Handed(st.flushed);
      history := history + [o];
    }
  }
}
