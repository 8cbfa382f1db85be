/**
 * Sequence facts shared by the deck, the table, the hands and the turn order:
 * concatenating a list of lists, removal by position (`List.remove(int)`),
 * reversal (popping a stack), move-to-front and front-to-back rotation of the
 * turn order.
 */
module Sequences {

  /** All inner sequences, one after another. */
  function Flatten<T>(ss: seq<seq<T>>): seq<T>
  {
    if ss == [] then [] else ss[0] + Flatten(ss[1..])
  }

  lemma {:induction false} FlattenConcat<T>(a: seq<seq<T>>, b: seq<seq<T>>)
    ensures Flatten(a + b) == Flatten(a) + Flatten(b)
  {
    if a == [] {
      assert a + b == b;
    } else {
      var c := a + b;
      assert c[0] == a[0] && c[1..] == a[1..] + b;
      FlattenConcat(a[1..], b);
      assert Flatten(c) == a[0] + (Flatten(a[1..]) + Flatten(b));
    }
  }

  /** Flattening one more inner sequence appends it. */
  lemma FlattenPrefix<T>(ss: seq<seq<T>>, i: nat)
    requires i < |ss|
    ensures Flatten(ss[..i + 1]) == Flatten(ss[..i]) + ss[i]
  {
    assert ss[..i + 1] == ss[..i] + [ss[i]];
    FlattenConcat(ss[..i], [ss[i]]);
    assert Flatten([ss[i]]) == ss[i] + Flatten([]);
  }

  /** Replacing one inner sequence changes the pooled multiset by exactly that difference. */
  lemma FlattenUpdate<T>(ss: seq<seq<T>>, i: nat, t: seq<T>)
    requires i < |ss|
    ensures multiset(Flatten(ss[i := t])) + multiset(ss[i]) == multiset(Flatten(ss)) + multiset(t)
  {
    var pre, post := ss[..i], ss[i + 1..];
    assert ss == pre + [ss[i]] + post;
    assert ss[i := t] == pre + [t] + post;
    FlattenConcat(pre + [ss[i]], post);
    FlattenConcat(pre, [ss[i]]);
    FlattenConcat(pre + [t], post);
    FlattenConcat(pre, [t]);
    assert Flatten([t]) == t + Flatten([]);
    assert Flatten([ss[i]]) == ss[i] + Flatten([]);
  }

  /** A multiset added to both sides of an equation can be taken away again. */
  lemma MultisetCancel<T>(a: multiset<T>, b: multiset<T>, c: multiset<T>)
    requires a + b == c + b
    ensures a == c
  {
    forall x
      ensures a[x] == c[x]
    {
      assert (a + b)[x] == (c + b)[x];
    }
  }

  /** A sequence of empty sequences flattens to nothing. */
  lemma {:induction false} FlattenEmpties<T>(ss: seq<seq<T>>)
    requires forall i :: 0 <= i < |ss| ==> ss[i] == []
    ensures Flatten(ss) == []
  {
    if ss != [] {
      FlattenEmpties(ss[1..]);
    }
  }

  /** Positions i and j of s hold different elements. */
  predicate Apart<T(==)>(s: seq<T>, i: nat, j: nat)
    requires i < |s| && j < |s|
  {
    s[i] != s[j]
  }

  /**
   * No element occurs twice. Stated through `Apart`, so that the fact about a
   * pair of positions is drawn only where that pair is asked about.
   */
  predicate Distinct<T(==)>(s: seq<T>)
  {
    forall i: nat, j: nat :: i < j < |s| ==> Apart(s, i, j)
  }

  /** In a sequence without repetitions, different positions hold different elements. */
  lemma DistinctAt<T>(s: seq<T>, i: nat, j: nat)
    requires Distinct(s) && i < |s| && j < |s| && i != j
    ensures s[i] != s[j]
  {
    if i < j {
      assert Apart(s, i, j);
    } else {
      assert Apart(s, j, i);
    }
  }

  /** In a sequence without repetitions every element occurs once. */
  lemma {:induction false} DistinctCounts<T>(s: seq<T>, x: T)
    requires Distinct(s)
    ensures multiset(s)[x] == if x in s then 1 else 0
  {
    if s != [] {
      var last := s[|s| - 1];
      var init := s[..|s| - 1];
      assert s == init + [last];
      assert last !in init by {
        forall i | 0 <= i < |init|
          ensures init[i] != last
        {
          assert Apart(s, i, |s| - 1);
        }
      }
      forall i: nat, j: nat | i < j < |init|
        ensures Apart(init, i, j)
      {
        assert Apart(s, i, j);
      }
      DistinctCounts(init, x);
    }
  }

  /** Rearranging a sequence without repetitions leaves it without repetitions. */
  lemma PermutationKeepsDistinct<T>(s: seq<T>, t: seq<T>)
    requires Distinct(s) && multiset(s) == multiset(t)
    ensures Distinct(t)
  {
    forall i, j | 0 <= i < j < |t|
      ensures t[i] != t[j]
    {
      var x := t[i];
      DistinctCounts(s, x);
      assert x in multiset(s);
      assert multiset(t)[x] == 1;
      assert t == t[..j] + [t[j]] + t[j + 1..];
      assert t[..j][i] == x;
      assert multiset(t[..j])[x] >= 1;
      assert multiset([t[j]])[x] == 0;
    }
  }

  /** `List.remove(i)`: the element at position i goes, the others keep their order. */
  function RemoveAt<T>(s: seq<T>, i: nat): (r: seq<T>)
    requires i < |s|
    ensures |r| == |s| - 1
    ensures forall k :: 0 <= k < i ==> r[k] == s[k]
    ensures forall k :: i <= k < |r| ==> r[k] == s[k + 1]
    ensures multiset(r) + multiset{s[i]} == multiset(s)
  {
    assert s == s[..i] + [s[i]] + s[i + 1..];
    s[..i] + s[i + 1..]
  }

  /** The elements of s in the opposite order: what popping a whole stack yields. */
  function Reversed<T>(s: seq<T>): (r: seq<T>)
    ensures |r| == |s|
    ensures forall k :: 0 <= k < |s| ==> r[k] == s[|s| - 1 - k]
  {
    if s == [] then []
    else
      assert s == s[..|s| - 1] + [s[|s| - 1]];
      [s[|s| - 1]] + Reversed(s[..|s| - 1])
  }

  /** Reversal keeps every element, as often as it occurs. */
  lemma {:induction false} ReversedPermutes<T>(s: seq<T>)
    ensures multiset(Reversed(s)) == multiset(s)
  {
    if s != [] {
      var init := s[..|s| - 1];
      ReversedPermutes(init);
      assert s == init + [s[|s| - 1]];
    }
  }

  /** `addFirst(remove(r))`: element r goes to the front, the others keep their order. */
  function MoveToFront<T>(s: seq<T>, r: nat): (t: seq<T>)
    requires r < |s|
    ensures |t| == |s| && t[0] == s[r]
    ensures t[1..] == RemoveAt(s, r)
    ensures multiset(t) == multiset(s)
  {
    [s[r]] + RemoveAt(s, r)
  }

  /** `addLast(removeFirst())`: the front element goes to the back. */
  function Rotate<T>(s: seq<T>): (t: seq<T>)
    requires |s| > 0
    ensures |t| == |s| && t[|t| - 1] == s[0]
    ensures forall k :: 0 <= k < |s| - 1 ==> t[k] == s[k + 1]
  {
    assert s == [s[0]] + s[1..];
    s[1..] + [s[0]]
  }

  /** Rotation keeps every element, as often as it occurs. */
  lemma RotatePermutes<T>(s: seq<T>)
    requires |s| > 0
    ensures multiset(Rotate(s)) == multiset(s)
  {
    assert s == [s[0]] + s[1..];
  }

  /** k rotations in a row. */
  function RotateTimes<T>(s: seq<T>, k: nat): seq<T>
    requires k == 0 || |s| > 0
    decreases k
  {
    if k == 0 then s else RotateTimes(Rotate(s), k - 1)
  }

  /** k rotations (k at most the length) split the sequence after its k-th element. */
  lemma {:induction false} RotateTimesSplits<T>(s: seq<T>, k: nat)
    requires k <= |s|
    ensures RotateTimes(s, k) == s[k..] + s[..k]
    decreases k
  {
    if k > 0 {
      var t := Rotate(s);
      RotateTimesSplits(t, k - 1);
      assert t[k - 1..] == s[k..] + [s[0]];
      assert t[..k - 1] == s[1..k];
      assert s[..k] == [s[0]] + s[1..k];
    }
  }

  /** Rotating once per element brings the order back where it started. */
  lemma RotationIsCyclic<T>(s: seq<T>)
    ensures RotateTimes(s, |s|) == s
  {
    RotateTimesSplits(s, |s|);
  }

  /** Swapping two blocks of inner sequences does not change what they hold together. */
  lemma FlattenSwap<T>(a: seq<seq<T>>, b: seq<seq<T>>)
    ensures multiset(Flatten(a + b)) == multiset(Flatten(b + a))
  {
    FlattenConcat(a, b);
    FlattenConcat(b, a);
  }

  /** Moving element r to the front keeps the pieces before and after it in order. */
  lemma MoveToFrontSplit<T>(s: seq<T>, r: nat)
    requires r < |s|
    ensures s == (s[..r] + [s[r]]) + s[r + 1..]
    ensures MoveToFront(s, r) == ([s[r]] + s[..r]) + s[r + 1..]
  {
    assert s == (s[..r] + [s[r]]) + s[r + 1..];
  }

  /** Move-to-front does not change what the inner sequences hold together. */
  lemma FlattenMoveToFront<T>(ss: seq<seq<T>>, r: nat)
    requires r < |ss|
    ensures multiset(Flatten(MoveToFront(ss, r))) == multiset(Flatten(ss))
  {
    var pre, post, x := ss[..r], ss[r + 1..], ss[r];
    MoveToFrontSplit(ss, r);
    FlattenConcat(pre + [x], post);
    FlattenConcat([x] + pre, post);
    FlattenSwap(pre, [x]);
  }

  /** Rotation does not change what the inner sequences hold together. */
  lemma FlattenRotate<T>(ss: seq<seq<T>>)
    requires |ss| > 0
    ensures multiset(Flatten(Rotate(ss))) == multiset(Flatten(ss))
  {
    assert ss == [ss[0]] + ss[1..];
    FlattenSwap([ss[0]], ss[1..]);
  }
}
