/** `Array.prototype.filter` and the facts about it that the roster relies on. */
module Seqs {

  /** The elements of `s` that satisfy `p`, in their original order. */
  function Keep<T>(s: seq<T>, p: T -> bool): (r: seq<T>)
    ensures |r| <= |s|
    ensures forall k :: 0 <= k < |r| ==> r[k] in s && p(r[k])
    ensures forall i :: 0 <= i < |s| && p(s[i]) ==> s[i] in r
    decreases |s|
  {
    if s == [] then []
    else
      assert forall i :: 1 <= i < |s| ==> s[i] == s[1..][i - 1];
      (if p(s[0]) then [s[0]] else []) + Keep(s[1..], p)
  }

  /** `idx` lists, in strictly increasing order, positions of `s` that hold `r` element by element. */
  ghost predicate Embedding<T>(r: seq<T>, s: seq<T>, idx: seq<int>)
  {
    && |idx| == |r|
    && (forall k :: 0 <= k < |idx| ==> 0 <= idx[k] < |s| && s[idx[k]] == r[k])
    && (forall k, l :: 0 <= k < l < |idx| ==> idx[k] < idx[l])
  }

  /** Every position in `idx` moved one place right. */
  function Shift(idx: seq<int>): (r: seq<int>)
    ensures |r| == |idx| && forall k :: 0 <= k < |idx| ==> r[k] == idx[k] + 1
  {
    seq(|idx|, k requires 0 <= k < |idx| => idx[k] + 1)
  }

  lemma ShiftEmbedding<T>(r: seq<T>, s: seq<T>, idx: seq<int>)
    requires s != [] && Embedding(r, s[1..], idx)
    ensures Embedding(r, s, Shift(idx))
    ensures forall k :: 0 <= k < |idx| ==> Shift(idx)[k] >= 1
  {
    forall k | 0 <= k < |idx|
      ensures 0 <= Shift(idx)[k] < |s| && s[Shift(idx)[k]] == r[k]
    {
      assert s[1..][idx[k]] == s[idx[k] + 1];
    }
  }

  lemma ConsEmbedding<T>(r: seq<T>, s: seq<T>, idx: seq<int>)
    requires s != [] && Embedding(r, s, idx)
    requires forall k :: 0 <= k < |idx| ==> idx[k] >= 1
    ensures Embedding([s[0]] + r, s, [0] + idx)
  {
  }

  /**
   * `Keep(s, p)` is the order-preserving sublist of `s` made of exactly the positions whose
   * element satisfies `p`: it embeds into `s` in order, and no satisfying position is skipped.
   */
  lemma {:induction false} KeepIsOrderedSublist<T>(s: seq<T>, p: T -> bool) returns (idx: seq<int>)
    ensures Embedding(Keep(s, p), s, idx)
    ensures forall i :: 0 <= i < |s| && p(s[i]) ==> i in idx
  {
    if s == [] {
      idx := [];
    } else {
      var tail := KeepIsOrderedSublist(s[1..], p);
      var rest := Keep(s[1..], p);
      ShiftEmbedding(rest, s, tail);
      var shifted := Shift(tail);
      if p(s[0]) {
        ConsEmbedding(rest, s, shifted);
        idx := [0] + shifted;
        assert Keep(s, p) == [s[0]] + rest;
      } else {
        idx := shifted;
        assert Keep(s, p) == rest;
      }
      assert forall j :: j in shifted ==> j in idx;
      forall i | 0 <= i < |s| && p(s[i])
        ensures i in idx
      {
        if i > 0 {
          assert s[1..][i - 1] == s[i];
          var k :| 0 <= k < |tail| && tail[k] == i - 1;
          assert shifted[k] == i;
          assert i in shifted;
        }
      }
    }
  }

  /** Filtering distributes over concatenation. */
  lemma {:induction false} KeepConcat<T>(a: seq<T>, b: seq<T>, p: T -> bool)
    ensures Keep(a + b, p) == Keep(a, p) + Keep(b, p)
    decreases |a|
  {
    if a == [] {
      assert a + b == b;
    } else {
      assert (a + b)[0] == a[0];
      assert (a + b)[1..] == a[1..] + b;
      KeepConcat(a[1..], b, p);
    }
  }

  /** Nothing is dropped exactly when every element passes. */
  lemma {:induction false} KeepAll<T>(s: seq<T>, p: T -> bool)
    ensures Keep(s, p) == s <==> forall i :: 0 <= i < |s| ==> p(s[i])
    ensures |Keep(s, p)| == |s| <==> forall i :: 0 <= i < |s| ==> p(s[i])
    decreases |s|
  {
    if s != [] {
      KeepAll(s[1..], p);
      assert forall i :: 1 <= i < |s| ==> s[i] == s[1..][i - 1];
    }
  }

  /** Everything is dropped exactly when no element passes. */
  lemma {:induction false} KeepNone<T>(s: seq<T>, p: T -> bool)
    ensures Keep(s, p) == [] <==> forall i :: 0 <= i < |s| ==> !p(s[i])
  {
    if Keep(s, p) == [] {
      forall i | 0 <= i < |s| ensures !p(s[i]) {
        assert s[i] in s;
      }
    } else {
      var x := Keep(s, p)[0];
      assert x in Keep(s, p);
      var i :| 0 <= i < |s| && s[i] == x;
    }
  }

  /** `Array.prototype.map`. */
  function Map<T, U>(s: seq<T>, f: T -> U): seq<U>
  {
    seq(|s|, i requires 0 <= i < |s| => f(s[i]))
  }

  /** Mapping distributes over concatenation. */
  lemma MapConcat<T, U>(a: seq<T>, b: seq<T>, f: T -> U)
    ensures Map(a + b, f) == Map(a, f) + Map(b, f)
  {
    assert forall i :: 0 <= i < |a| ==> (a + b)[i] == a[i];
    assert forall i :: |a| <= i < |a| + |b| ==> (a + b)[i] == b[i - |a|];
  }

  /** Mapping with a function that never changes the test result commutes with filtering. */
  lemma {:induction false} KeepMap<T>(s: seq<T>, f: T -> T, p: T -> bool)
    requires forall i :: 0 <= i < |s| ==> p(f(s[i])) == p(s[i])
    ensures Keep(Map(s, f), p) == Map(Keep(s, p), f)
    decreases |s|
  {
    if s != [] {
      var t := Map(s, f);
      assert t[0] == f(s[0]);
      assert t[1..] == Map(s[1..], f);
      assert forall i :: 0 <= i < |s[1..]| ==> s[1..][i] == s[i + 1];
      KeepMap(s[1..], f, p);
      var head := if p(s[0]) then [s[0]] else [];
      assert Keep(s, p) == head + Keep(s[1..], p);
      assert Keep(t, p) == Map(head, f) + Keep(t[1..], p);
      MapConcat(head, Keep(s[1..], p), f);
    }
  }
}
