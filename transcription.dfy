/** The recognition stage: take utterance chunks off the audio queue, run the
    speech recogniser once per chunk, join the segment texts, trim the result
    and put it on the text queue when it is not blank. The recogniser is an
    oracle: for each chunk it gives the segment texts or fails. */
module Transcription {
  import opened Audio

  /** What the recogniser gives for one chunk: its segments' texts in
      emission order, or an exception. */
  datatype Recognition = Segments(texts: seq<string>) | Failed

  /** The characters Python's `str.strip()` removes (those for which
      `str.isspace()` holds). */
  predicate IsSpace(c: char)
  {
    || '\t' <= c <= '\r'
    || '\U{1C}' <= c <= '\U{1F}'
    || c == ' '
    || c == '\U{85}'
    || c == '\U{A0}'
    || c == '\U{1680}'
    || '\U{2000}' <= c <= '\U{200A}'
    || c == '\U{2028}'
    || c == '\U{2029}'
    || c == '\U{202F}'
    || c == '\U{205F}'
    || c == '\U{3000}'
  }

  predicate AllSpace(s: string)
  {
    forall k | 0 <= k < |s| :: IsSpace(s[k])
  }

  /** Neither starts nor ends with whitespace. */
  predicate Stripped(s: string)
  {
    s == [] || (!IsSpace(s[0]) && !IsSpace(s[|s| - 1]))
  }

  /** Drops the leading whitespace. */
  function TrimStart(s: string): (r: string)
    ensures |r| <= |s| && r == s[|s| - |r|..]
    ensures forall k | 0 <= k < |s| - |r| :: IsSpace(s[k])
    ensures r == [] || !IsSpace(r[0])
  {
    if s != [] && IsSpace(s[0]) then TrimStart(s[1..]) else s
  }

  /** Drops the trailing whitespace. */
  function TrimEnd(s: string): (r: string)
    ensures |r| <= |s| && r == s[..|r|]
    ensures forall k | |r| <= k < |s| :: IsSpace(s[k])
    ensures r == [] || !IsSpace(r[|r| - 1])
  {
    if s != [] && IsSpace(s[|s| - 1]) then TrimEnd(s[..|s| - 1]) else s
  }

  /** r is a contiguous piece of s with only whitespace before and after it. */
  ghost predicate CutFrom(r: string, s: string)
  {
    exists i | 0 <= i <= |s| - |r| ::
      r == s[i..i + |r|] && AllSpace(s[..i]) && AllSpace(s[i + |r|..])
  }

  /** Python's `str.strip()`: the result is a contiguous piece of the input,
      only whitespace is cut off either end, it neither starts nor ends with
      whitespace, and it is empty exactly when the input is all whitespace. */
  function Strip(s: string): (r: string)
    ensures Stripped(r)
    ensures r == [] <==> AllSpace(s)
    ensures CutFrom(r, s)
  {
    var t := TrimStart(s);
    var r := TrimEnd(t);
    StripBounds(s, t, r);
    r
  }

  lemma StripBounds(s: string, t: string, r: string)
    requires |t| <= |s| && t == s[|s| - |t|..] && (forall k | 0 <= k < |s| - |t| :: IsSpace(s[k]))
    requires t == [] || !IsSpace(t[0])
    requires |r| <= |t| && r == t[..|r|] && (forall k | |r| <= k < |t| :: IsSpace(t[k]))
    requires r == [] || !IsSpace(r[|r| - 1])
    ensures Stripped(r)
    ensures r == [] <==> AllSpace(s)
    ensures CutFrom(r, s)
  {
    var i := |s| - |t|;
    assert t == s[i..];
    assert r == t[..|r|];
    assert r == s[i..i + |r|] by {
      forall k | 0 <= k < |r| ensures r[k] == s[i + k] {
        assert r[k] == t[k];
      }
    }
    assert s[i + |r|..] == t[|r|..];
    if r != [] {
      assert r[0] == t[0];
    }
    if r == [] {
      assert t == t[|r|..];
      assert t == [];
      assert s == s[..i];
    }
    assert AllSpace(s[..i]) && AllSpace(s[i + |r|..]);
  }

  /** The text built by appending each segment's text and one space. */
  function Join(texts: seq<string>): (r: string)
    ensures |r| == TotalLength(texts) + |texts|
  {
    if texts == [] then "" else Join(texts[..|texts| - 1]) + texts[|texts| - 1] + " "
  }

  /** The text put on the text queue for one chunk, if any. */
  function Transcript(outcome: Recognition): (r: Option<string>)
    ensures r.Some? <==> outcome.Segments? && !AllSpace(Join(outcome.texts))
    ensures r.Some? ==> r.value == Strip(Join(outcome.texts))
    ensures r.Some? ==> r.value != "" && Stripped(r.value)
  {
    match outcome
    case Failed => None
    case Segments(texts) =>
      var text := Strip(Join(texts));
      if text != "" then Some(text) else None
  }

  function Emitted(t: Option<string>): seq<string>
  {
    if t.Some? then [t.value] else []
  }

  /** The texts for a list of chunks, in chunk order. */
  function Transcripts(recognize: Block -> Recognition, chunks: seq<Block>): (r: seq<string>)
    ensures |r| <= |chunks|
  {
    if chunks == [] then []
    else Emitted(Transcript(recognize(chunks[0]))) + Transcripts(recognize, chunks[1..])
  }

  /** Every text the loop can emit is non-empty and has no whitespace at
      either end. */
  lemma {:induction false} TranscriptsWellFormed(recognize: Block -> Recognition, chunks: seq<Block>)
    ensures forall t | t in Transcripts(recognize, chunks) :: t != "" && Stripped(t)
    decreases |chunks|
  {
    if chunks != [] {
      TranscriptsWellFormed(recognize, chunks[1..]);
    }
  }

  /** What one turn of the consumer loop observes: the chunks the producer has
      put on the audio queue since the previous turn, and whether the stop
      flag is set when the loop condition is checked. */
  datatype Tick = Tick(stopSet: bool, arrived: seq<Block>)

  /** The chunks put on the queue up to and including the turn at which the
      stop flag is seen. */
  function ObservedArrivals(ticks: seq<Tick>): seq<Block>
  {
    if ticks == [] then []
    else ticks[0].arrived + (if ticks[0].stopSet then [] else ObservedArrivals(ticks[1..]))
  }

  /** The queue left over, the chunks taken off it and the texts emitted. */
  datatype Consumed = Consumed(remaining: seq<Block>, taken: seq<Block>, texts: seq<string>)

  /** The consumer loop over a list of turns: a turn with the stop flag set
      ends it; a turn that finds the queue empty times out and emits nothing;
      otherwise the turn takes the head chunk and emits its transcript, if any. */
  function Consume(recognize: Block -> Recognition, queue: seq<Block>, ticks: seq<Tick>): (r: Consumed)
    ensures |r.taken| <= |ticks|
    decreases |ticks|
  {
    if ticks == [] then Consumed(queue, [], [])
    else
      var q := queue + ticks[0].arrived;
      if ticks[0].stopSet then Consumed(q, [], [])
      else if q == [] then Consume(recognize, q, ticks[1..])
      else
        var rest := Consume(recognize, q[1..], ticks[1..]);
        Consumed(rest.remaining, [q[0]] + rest.taken,
                 Emitted(Transcript(recognize(q[0]))) + rest.texts)
  }

  /** The loop emits exactly the transcripts of the chunks it took, in the
      order it took them, at most one per chunk. */
  lemma {:induction false} ConsumeEmitsInOrder(recognize: Block -> Recognition, queue: seq<Block>, ticks: seq<Tick>)
    ensures var r := Consume(recognize, queue, ticks);
            r.texts == Transcripts(recognize, r.taken)
    decreases |ticks|
  {
    if ticks != [] && !ticks[0].stopSet {
      var q := queue + ticks[0].arrived;
      if q == [] {
        ConsumeEmitsInOrder(recognize, q, ticks[1..]);
      } else {
        var rest := Consume(recognize, q[1..], ticks[1..]);
        ConsumeEmitsInOrder(recognize, q[1..], ticks[1..]);
        assert ([q[0]] + rest.taken)[0] == q[0];
        assert ([q[0]] + rest.taken)[1..] == rest.taken;
      }
    }
  }

  /** The loop takes chunks only from the front of the queue, in the order
      they were put there, and loses none. */
  lemma {:induction false} ConsumeTakesFromFront(recognize: Block -> Recognition, queue: seq<Block>, ticks: seq<Tick>)
    ensures var r := Consume(recognize, queue, ticks);
            queue + ObservedArrivals(ticks) == r.taken + r.remaining
    decreases |ticks|
  {
    if ticks == [] {
      assert queue + [] == [] + queue;
    } else if ticks[0].stopSet {
      assert queue + (ticks[0].arrived + []) == [] + (queue + ticks[0].arrived);
    } else {
      var q := queue + ticks[0].arrived;
      if q == [] {
        ConsumeTakesFromFront(recognize, q, ticks[1..]);
        assert queue + ticks[0].arrived + ObservedArrivals(ticks[1..]) == q + ObservedArrivals(ticks[1..]);
      } else {
        ConsumeTakesFromFront(recognize, q[1..], ticks[1..]);
        TakeFromFront(recognize, queue, ticks);
      }
    }
  }

  lemma TakeFromFront(recognize: Block -> Recognition, queue: seq<Block>, ticks: seq<Tick>)
    requires ticks != [] && !ticks[0].stopSet && queue + ticks[0].arrived != []
    requires var q := queue + ticks[0].arrived;
             var rest := Consume(recognize, q[1..], ticks[1..]);
             q[1..] + ObservedArrivals(ticks[1..]) == rest.taken + rest.remaining
    ensures var r := Consume(recognize, queue, ticks);
            queue + ObservedArrivals(ticks) == r.taken + r.remaining
  {
    var q := queue + ticks[0].arrived;
    var tail := ObservedArrivals(ticks[1..]);
    var rest := Consume(recognize, q[1..], ticks[1..]);
    ConsumeTake(recognize, queue, ticks);
    calc {
      queue + ObservedArrivals(ticks);
      queue + (ticks[0].arrived + tail);
      { Regroup(queue, ticks[0].arrived, tail); }
      q + tail;
      { assert q == [q[0]] + q[1..]; Regroup([q[0]], q[1..], tail); }
      [q[0]] + (rest.taken + rest.remaining);
      { Regroup([q[0]], rest.taken, rest.remaining); }
      ([q[0]] + rest.taken) + rest.remaining;
    }
  }

  /** One turn that finds a chunk: it takes the head and emits its text. */
  lemma ConsumeTake(recognize: Block -> Recognition, queue: seq<Block>, ticks: seq<Tick>)
    requires ticks != [] && !ticks[0].stopSet && queue + ticks[0].arrived != []
    ensures var q := queue + ticks[0].arrived;
            var rest := Consume(recognize, q[1..], ticks[1..]);
            Consume(recognize, queue, ticks)
            == Consumed(rest.remaining, [q[0]] + rest.taken, Emitted(Transcript(recognize(q[0]))) + rest.texts)
  {
  }

  /** The texts of consecutive lists of chunks are consecutive. */
  lemma {:induction false} TranscriptsAppend(recognize: Block -> Recognition, a: seq<Block>, b: seq<Block>)
    ensures Transcripts(recognize, a + b) == Transcripts(recognize, a) + Transcripts(recognize, b)
    decreases |a|
  {
    if a == [] {
      assert a + b == b;
    } else {
      assert (a + b)[0] == a[0];
      assert (a + b)[1..] == a[1..] + b;
      TranscriptsAppend(recognize, a[1..], b);
    }
  }

  /** A chunk whose recognition fails, or whose text is blank, adds nothing
      and leaves the texts of the chunks around it as they are. */
  lemma ChunkWithoutText(recognize: Block -> Recognition, a: seq<Block>, c: Block, b: seq<Block>)
    requires Transcript(recognize(c)).None?
    ensures Transcripts(recognize, a + [c] + b) == Transcripts(recognize, a) + Transcripts(recognize, b)
  {
    assert Transcripts(recognize, [c]) == [] by {
      assert [c][0] == c && [c][1..] == [];
    }
    TranscriptsAppend(recognize, a, [c]);
    TranscriptsAppend(recognize, a + [c], b);
  }

  /** Once a turn sees the stop flag, later turns change nothing: no chunk
      is taken and no text is emitted after it. */
  lemma {:induction false} StopIsFinal(recognize: Block -> Recognition, queue: seq<Block>, ticks: seq<Tick>, k: nat)
    requires k < |ticks| && ticks[k].stopSet
    ensures Consume(recognize, queue, ticks) == Consume(recognize, queue, ticks[..k + 1])
    decreases k
  {
    if k > 0 {
      var q := queue + ticks[0].arrived;
      assert ticks[..k + 1][1..] == ticks[1..][..k];
      if !ticks[0].stopSet {
        if q == [] {
          StopIsFinal(recognize, q, ticks[1..], k - 1);
        } else {
          StopIsFinal(recognize, q[1..], ticks[1..], k - 1);
        }
      }
    }
  }

  /** Turns that find the queue empty time out: nothing is taken and
      nothing is emitted. */
  lemma {:induction false} TimeoutsEmitNothing(recognize: Block -> Recognition, ticks: seq<Tick>)
    requires forall i | 0 <= i < |ticks| :: ticks[i].arrived == []
    ensures Consume(recognize, [], ticks).taken == []
    ensures Consume(recognize, [], ticks).texts == []
    decreases |ticks|
  {
    if ticks != [] && !ticks[0].stopSet {
      TimeoutsEmitNothing(recognize, ticks[1..]);
    }
  }

  /** A failing chunk does not stop the loop: the next turn takes the next
      chunk and emits its text. */
  lemma FailureThenNext(recognize: Block -> Recognition, bad: Block, good: Block)
    requires recognize(bad).Failed?
    ensures var r := Consume(recognize, [bad, good], [Tick(false, []), Tick(false, [])]);
            r.taken == [bad, good] && r.remaining == []
            && r.texts == Emitted(Transcript(recognize(good)))
  {
    assert [bad, good][1..] == [good];
    assert [good][1..] == [];
  }

  /** A text without whitespace at either end comes back unchanged from
      `strip()` after the joining space is appended. */
  lemma StripJoined(s: string)
    requires Stripped(s)
    ensures Strip(s + " ") == s
  {
    if s == [] {
      assert TrimStart(" ") == [];
    } else {
      assert (s + " ")[0] == s[0];
      assert TrimStart(s + " ") == s + " ";
      assert (s + " ")[..|s|] == s;
      assert TrimEnd(s + " ") == TrimEnd(s);
    }
  }

  /** The unit test's single segment comes out unchanged. */
  lemma SingleSegment()
    ensures Transcript(Segments(["This is a test transcription."])) == Some("This is a test transcription.")
  {
    var s := "This is a test transcription.";
    assert Join([s]) == s + " " by {
      assert [s][..0] == [];
    }
    StripJoined(s);
  }

  /** The unit test of the loop: one chunk whose single segment is the test
      sentence; the first turn takes it and emits the sentence unchanged. */
  lemma TestSentenceEmitted(recognize: Block -> Recognition, chunk: Block)
    requires recognize(chunk) == Segments(["This is a test transcription."])
    ensures var r := Consume(recognize, [chunk], [Tick(false, [])]);
            r.texts == ["This is a test transcription."] && r.taken == [chunk] && r.remaining == []
  {
    OneTurn(recognize, chunk);
    SingleSegment();
  }

  /** A single turn with one chunk on the queue takes it and emits its text. */
  lemma OneTurn(recognize: Block -> Recognition, chunk: Block)
    ensures Consume(recognize, [chunk], [Tick(false, [])])
            == Consumed([], [chunk], Emitted(Transcript(recognize(chunk))))
  {
    assert [chunk] + [] == [chunk];
    assert [Tick(false, [])][1..] == [];
    assert Emitted(Transcript(recognize(chunk))) + [] == Emitted(Transcript(recognize(chunk)));
  }

  /** Two segments are joined by a single space. */
  lemma TwoSegments()
    ensures Transcript(Segments(["hello", "world"])) == Some("hello world")
  {
    assert Join(["hello", "world"]) == "hello world" + " " by {
      assert ["hello", "world"][..1] == ["hello"];
      assert ["hello"][..0] == [];
    }
    StripJoined("hello world");
  }

  /** No segments, or only blank ones, emit nothing. */
  lemma BlankSegments(texts: seq<string>)
    requires forall i | 0 <= i < |texts| :: AllSpace(texts[i])
    ensures Transcript(Segments(texts)) == None
  {
    BlankJoin(texts);
  }

  lemma {:induction false} BlankJoin(texts: seq<string>)
    requires forall i | 0 <= i < |texts| :: AllSpace(texts[i])
    ensures AllSpace(Join(texts))
    decreases |texts|
  {
    if texts != [] {
      BlankJoin(texts[..|texts| - 1]);
    }
  }

  /** Appends each segment's text and a space, in order. */
  method AssembleText(segments: seq<string>) returns (transcribedText: string)
    ensures transcribedText == Join(segments)
  {
    transcribedText := "";
    var i := 0;
    while i < |segments|
      invariant 0 <= i <= |segments|
      invariant transcribedText == Join(segments[..i])
    {
      assert segments[..i + 1][..i] == segments[..i];
      transcribedText := transcribedText + segments[i] + " ";
      i := i + 1;
    }
    assert segments[..i] == segments;
  }

  /** The transcriber: the recogniser it loaded, the queue of chunks it
      consumes and the queue of texts it produces. */
  class Transcriber {
    const recognize: Block -> Recognition
    var audioQueue: seq<Block>
    var textQueue: seq<string>

    constructor (recognize: Block -> Recognition)
      ensures this.recognize == recognize
      ensures audioQueue == [] && textQueue == []
    {
      this.recognize := recognize;
      audioQueue := [];
      textQueue := [];
    }

    /** The consumer loop, over the turns it gets to observe. */
    method TranscribeAudio(ticks: seq<Tick>)
      modifies this
      ensures var r := Consume(recognize, old(audioQueue), ticks);
              audioQueue == r.remaining && textQueue == old(textQueue) + r.texts
    {
      ghost var goal := Consume(recognize, audioQueue, ticks);
      ghost var taken: seq<Block> := [];
      ghost var texts: seq<string> := [];
      var i := 0;
      assert ticks[0..] == ticks;
      assert [] + goal.taken == goal.taken && [] + goal.texts == goal.texts;
      while i < |ticks|
        invariant 0 <= i <= |ticks|
        invariant textQueue == old(textQueue) + texts
        invariant var r := Consume(recognize, audioQueue, ticks[i..]);
                  goal == Consumed(r.remaining, taken + r.taken, texts + r.texts)
      {
        ghost var before := audioQueue;
        assert ticks[i..][0] == ticks[i] && ticks[i..][1..] == ticks[i + 1..];
        audioQueue := audioQueue + ticks[i].arrived;
        if ticks[i].stopSet {
          break;
        }
        if audioQueue == [] {
          // queue.Empty after the timeout: go round again.
          assert Consume(recognize, before, ticks[i..]) == Consume(recognize, audioQueue, ticks[i + 1..]);
          ghost var r := Consume(recognize, audioQueue, ticks[i + 1..]);
          assert goal == Consumed(r.remaining, taken + r.taken, texts + r.texts);
        } else {
          var audioChunk := audioQueue[0];
          ghost var emitted := Emitted(Transcript(recognize(audioChunk)));
          ConsumeTake(recognize, before, ticks[i..]);
          audioQueue := audioQueue[1..];
          match recognize(audioChunk) {
            case Failed =>
              // The exception is logged and the loop carries on.
            case Segments(segments) =>
              var transcribedText := AssembleText(segments);
              if Strip(transcribedText) != "" {
                textQueue := textQueue + [Strip(transcribedText)];
              }
          }
          ghost var rest := Consume(recognize, audioQueue, ticks[i + 1..]);
          assert Consume(recognize, before, ticks[i..])
                 == Consumed(rest.remaining, [audioChunk] + rest.taken, emitted + rest.texts);
          Regroup(taken, [audioChunk], rest.taken);
          Regroup(texts, emitted, rest.texts);
          Regroup(old(textQueue), texts, emitted);
          taken := taken + [audioChunk];
          texts := texts + emitted;
          assert goal == Consumed(rest.remaining, taken + rest.taken, texts + rest.texts);
        }
        i := i + 1;
      }
    }
  }
}
