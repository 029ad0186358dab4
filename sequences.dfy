/** Reference definitions over sequences: the order-preserving filter and the left fold. */
module Sequences {

  /** The elements of `s` that satisfy `p`, in their original order. */
  function Kept<T>(s: seq<T>, p: T -> bool): seq<T>
  {
    if s == [] then []
    else if p(s[0]) then [s[0]] + Kept(s[1..], p)
    else Kept(s[1..], p)
  }

  /** Filtering distributes over concatenation, so a loop may filter one element at a time. */
  lemma {:induction false} KeptAppend<T>(a: seq<T>, b: seq<T>, p: T -> bool)
    ensures Kept(a + b, p) == Kept(a, p) + Kept(b, p)
  {
    if a == [] {
      assert a + b == b;
    } else {
      assert (a + b)[1..] == a[1..] + b;
      KeptAppend(a[1..], b, p);
    }
  }

  /** An element survives the filter exactly when it is in `s` and satisfies `p`. */
  lemma {:induction false} KeptMembers<T>(s: seq<T>, p: T -> bool, x: T)
    ensures x in Kept(s, p) <==> x in s && p(x)
  {
    if s != [] {
      KeptMembers(s[1..], p, x);
      assert s == [s[0]] + s[1..];
    }
  }

  /** The filter never produces elements in a new relative order: every pair of kept elements
      stays in the order the original sequence had them. */
  lemma {:induction false} KeptIsSubsequence<T>(s: seq<T>, p: T -> bool)
    ensures |Kept(s, p)| <= |s|
    ensures exists idx: seq<nat> :: IsEmbedding(idx, Kept(s, p), s)
  {
    if s == [] {
      assert IsEmbedding([], Kept(s, p), s);
    } else {
      KeptIsSubsequence(s[1..], p);
      var idx :| IsEmbedding(idx, Kept(s[1..], p), s[1..]);
      var shifted := ShiftEmbedding(idx, Kept(s[1..], p), s);
      if p(s[0]) {
        assert Kept(s, p) == [s[0]] + Kept(s[1..], p);
        assert IsEmbedding([0] + shifted, Kept(s, p), s);
      } else {
        assert Kept(s, p) == Kept(s[1..], p);
        assert IsEmbedding(shifted, Kept(s, p), s);
      }
    }
  }

  /** An embedding into the tail of `s` shifts to an embedding into `s`, and one more position
      in front embeds `s[0]` followed by the same sequence. */
  lemma ShiftEmbedding<T>(idx: seq<nat>, t: seq<T>, s: seq<T>) returns (shifted: seq<nat>)
    requires |s| > 0 && IsEmbedding(idx, t, s[1..])
    ensures IsEmbedding(shifted, t, s)
    ensures IsEmbedding([0] + shifted, [s[0]] + t, s)
  {
    shifted := seq(|idx|, k requires 0 <= k < |idx| => idx[k] + 1);
    forall k | 0 <= k < |shifted| ensures shifted[k] < |s| && s[shifted[k]] == t[k] {
      assert s[1..][idx[k]] == t[k];
    }
    var front := [0] + shifted;
    forall k | 0 <= k < |front| ensures front[k] < |s| && s[front[k]] == ([s[0]] + t)[k] {
      if k > 0 {
        assert front[k] == shifted[k - 1];
      }
    }
    forall k, l | 0 <= k < l < |front| ensures front[k] < front[l] {
      if k > 0 {
        assert front[k] == shifted[k - 1] && front[l] == shifted[l - 1];
      }
    }
  }

  /** `idx` lists strictly increasing positions of `s` at which the elements of `t` stand. */
  ghost predicate IsEmbedding<T>(idx: seq<nat>, t: seq<T>, s: seq<T>) {
    && |idx| == |t|
    && (forall k :: 0 <= k < |idx| ==> idx[k] < |s| && s[idx[k]] == t[k])
    && (forall k, l :: 0 <= k < l < |idx| ==> idx[k] < idx[l])
  }

  /** `acc` combined with every element of `s` from left to right. */
  function FoldLeft<A, T>(f: (A, T) -> A, acc: A, s: seq<T>): A
  {
    if s == [] then acc else FoldLeft(f, f(acc, s[0]), s[1..])
  }

  /** Folding a concatenation folds the second part starting from the result of the first. */
  lemma {:induction false} FoldLeftAppend<A, T>(f: (A, T) -> A, acc: A, a: seq<T>, b: seq<T>)
    ensures FoldLeft(f, acc, a + b) == FoldLeft(f, FoldLeft(f, acc, a), b)
  {
    if a == [] {
      assert a + b == b;
    } else {
      assert (a + b)[1..] == a[1..] + b;
      FoldLeftAppend(f, f(acc, a[0]), a[1..], b);
    }
  }
}
