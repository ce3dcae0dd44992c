/** Audio data shared by the segmentation and transcription stages. */
module Audio {

  /** One row of a captured block: one sample per input channel. */
  type Frame = seq<real>

  /** A block of frames as the capture stream delivers it (frames x channels). */
  type Block = seq<Frame>

  datatype Option<T> = None | Some(value: T)

  lemma Regroup<T>(a: seq<T>, b: seq<T>, c: seq<T>)
    ensures a + (b + c) == (a + b) + c
  {
  }

  lemma SplitLast<T>(s: seq<T>)
    requires s != []
    ensures s == s[..|s| - 1] + [s[|s| - 1]]
  {
  }

  /** Sum of the lengths of the parts. */
  function TotalLength<T>(parts: seq<seq<T>>): nat
  {
    if parts == [] then 0 else TotalLength(parts[..|parts| - 1]) + |parts[|parts| - 1]|
  }

  /** In-order concatenation of the parts along the first axis, as
      `np.concatenate(parts, axis=0)` joins the buffered blocks of an utterance. */
  function Concat<T>(parts: seq<seq<T>>): (r: seq<T>)
    ensures |r| == TotalLength(parts)
  {
    if parts == [] then [] else Concat(parts[..|parts| - 1]) + parts[|parts| - 1]
  }

  /** Concatenation distributes over appending lists of parts. */
  lemma {:induction false} ConcatAppend<T>(a: seq<seq<T>>, b: seq<seq<T>>)
    ensures Concat(a + b) == Concat(a) + Concat(b)
    decreases |b|
  {
    if b == [] {
      assert a + b == a;
    } else {
      var b', last := b[..|b| - 1], b[|b| - 1];
      assert (a + b)[..|a + b| - 1] == a + b';
      assert (a + b)[|a + b| - 1] == last;
      ConcatAppend(a, b');
      calc {
        Concat(a + b);
        Concat(a + b') + last;
        (Concat(a) + Concat(b')) + last;
        { Regroup(Concat(a), Concat(b'), last); }
        Concat(a) + Concat(b);
      }
    }
  }

  /** Part k occupies exactly the frames between the total lengths of the parts
      before it and of the parts up to it: nothing is reordered, dropped or repeated. */
  lemma ConcatSlice<T>(parts: seq<seq<T>>, k: nat)
    requires k < |parts|
    ensures TotalLength(parts[..k]) + |parts[k]| <= |Concat(parts)|
    ensures Concat(parts)[TotalLength(parts[..k])..TotalLength(parts[..k]) + |parts[k]|] == parts[k]
  {
    assert parts == parts[..k] + [parts[k]] + parts[k + 1..];
    ConcatAppend(parts[..k] + [parts[k]], parts[k + 1..]);
    ConcatAppend(parts[..k], [parts[k]]);
    assert Concat([parts[k]]) == parts[k] by {
      assert [parts[k]][..0] == [];
    }
  }

  /** When every part has n elements, the concatenation has |parts| * n. */
  lemma {:induction false} ConcatUniform<T>(parts: seq<seq<T>>, n: nat)
    requires forall i | 0 <= i < |parts| :: |parts[i]| == n
    ensures |Concat(parts)| == |parts| * n
    decreases |parts|
  {
    if parts != [] {
      var p := parts[..|parts| - 1];
      ConcatUniform(p, n);
      assert |Concat(parts)| == |p| * n + n;
      assert |p| * n + n == (|p| + 1) * n;
    }
  }
}
