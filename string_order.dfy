/**
 * The ordering Python uses for `str` values (code unit by code unit, a proper
 * prefix sorting first), and the in-place sort `list.sort()` performs with it.
 */
module StringOrder {

  /** `a <= b` on Python strings: the first differing character decides; a prefix is smaller. */
  predicate LessEq(a: string, b: string)
    decreases |a|
  {
    if |a| == 0 then true
    else if |b| == 0 then false
    else if a[0] != b[0] then a[0] < b[0]
    else LessEq(a[1..], b[1..])
  }

  lemma {:induction false} LessEqReflexive(a: string)
    ensures LessEq(a, a)
    decreases |a|
  {
    if |a| > 0 {
      LessEqReflexive(a[1..]);
    }
  }

  lemma {:induction false} LessEqTotal(a: string, b: string)
    ensures LessEq(a, b) || LessEq(b, a)
    decreases |a|
  {
    if |a| > 0 && |b| > 0 && a[0] == b[0] {
      LessEqTotal(a[1..], b[1..]);
    }
  }

  lemma {:induction false} LessEqAntisymmetric(a: string, b: string)
    requires LessEq(a, b) && LessEq(b, a)
    ensures a == b
    decreases |a|
  {
    if |a| > 0 && |b| > 0 {
      LessEqAntisymmetric(a[1..], b[1..]);
      assert a == [a[0]] + a[1..];
      assert b == [b[0]] + b[1..];
    }
  }

  lemma {:induction false} LessEqTransitive(a: string, b: string, c: string)
    requires LessEq(a, b) && LessEq(b, c)
    ensures LessEq(a, c)
    decreases |a|
  {
    if |a| > 0 && |b| > 0 && |c| > 0 && a[0] == b[0] && b[0] == c[0] {
      LessEqTransitive(a[1..], b[1..], c[1..]);
    }
  }

  ghost predicate Sorted(s: seq<string>) {
    forall p, q :: 0 <= p < q < |s| ==> LessEq(s[p], s[q])
  }

  /** The first element of a sorted sequence is below every element of it. */
  lemma SortedHeadIsLeast(s: seq<string>, x: string)
    requires Sorted(s) && x in multiset(s)
    ensures |s| > 0 && LessEq(s[0], x)
  {
    var k :| 0 <= k < |s| && s[k] == x;
    if k == 0 { LessEqReflexive(x); }
  }

  lemma SameHeadSameTail(s: seq<string>, t: seq<string>)
    requires |s| > 0 && |t| > 0 && s[0] == t[0] && multiset(s) == multiset(t)
    ensures multiset(s[1..]) == multiset(t[1..])
  {
    assert s == [s[0]] + s[1..];
    assert t == [t[0]] + t[1..];
    calc {
      multiset(s[1..]);
      multiset(s) - multiset{s[0]};
      multiset(t) - multiset{t[0]};
      multiset(t[1..]);
    }
  }

  lemma SortedTail(s: seq<string>)
    requires |s| > 0 && Sorted(s)
    ensures Sorted(s[1..])
  {
  }

  /**
   * Two sorted sequences holding the same elements with the same
   * multiplicities are the same sequence: the result of sorting does not
   * depend on the order of the input.
   */
  lemma {:induction false} SortedPermutationUnique(s: seq<string>, t: seq<string>)
    requires Sorted(s) && Sorted(t)
    requires multiset(s) == multiset(t)
    ensures s == t
    decreases |s|
  {
    if |s| == 0 {
      assert |multiset(t)| == 0;
    } else {
      SortedHeadIsLeast(t, s[0]);
      SortedHeadIsLeast(s, t[0]);
      LessEqAntisymmetric(s[0], t[0]);
      SameHeadSameTail(s, t);
      SortedTail(s);
      SortedTail(t);
      SortedPermutationUnique(s[1..], t[1..]);
      assert s == [s[0]] + s[1..];
      assert t == [t[0]] + t[1..];
    }
  }

  /** Inserts `x` before the first element it is not larger than. */
  function Insert(x: string, s: seq<string>): (r: seq<string>)
    ensures multiset(r) == multiset(s) + multiset{x}
    ensures Sorted(s) ==> Sorted(r)
  {
    if |s| == 0 then [x]
    else if LessEq(x, s[0]) then
      InsertFront(x, s);
      [x] + s
    else
      var tail := Insert(x, s[1..]);
      assert s == [s[0]] + s[1..];
      InsertBehind(x, s, tail);
      [s[0]] + tail
  }

  lemma InsertFront(x: string, s: seq<string>)
    requires |s| > 0 && LessEq(x, s[0])
    ensures Sorted(s) ==> Sorted([x] + s)
  {
    if Sorted(s) {
      var r := [x] + s;
      forall p, q | 0 <= p < q < |r| ensures LessEq(r[p], r[q]) {
        if p == 0 && q > 1 { LessEqTransitive(x, s[0], s[q - 1]); }
      }
    }
  }

  lemma InsertBehind(x: string, s: seq<string>, tail: seq<string>)
    requires |s| > 0 && !LessEq(x, s[0])
    requires multiset(tail) == multiset(s[1..]) + multiset{x}
    requires Sorted(s[1..]) ==> Sorted(tail)
    ensures Sorted(s) ==> Sorted([s[0]] + tail)
  {
    if Sorted(s) {
      LessEqTotal(x, s[0]);
      forall q | 0 <= q < |tail| ensures LessEq(s[0], tail[q]) {
        assert tail[q] in multiset(s[1..]) + multiset{x};
        if tail[q] != x {
          assert tail[q] in multiset(s[1..]);
          var k :| 0 <= k < |s[1..]| && s[1..][k] == tail[q];
          assert s[k + 1] == tail[q];
        }
      }
    }
  }

  /** Functional insertion sort: the specification of `list.sort()` on strings. */
  function SortSeq(s: seq<string>): (r: seq<string>)
    ensures Sorted(r)
    ensures multiset(r) == multiset(s)
  {
    if |s| == 0 then []
    else
      assert s == [s[0]] + s[1..];
      Insert(s[0], SortSeq(s[1..]))
  }

  /** `list.sort()`: sorts the array in place, ascending by Python string order. */
  method SortInPlace(a: array<string>)
    modifies a
    ensures a[..] == SortSeq(old(a[..]))
  {
    var i := 0;
    while i < a.Length
      invariant 0 <= i <= a.Length
      invariant forall p, q :: 0 <= p < q < i ==> LessEq(a[p], a[q])
      invariant multiset(a[..]) == old(multiset(a[..]))
    {
      var j := i;
      while j > 0 && !LessEq(a[j - 1], a[j])
        invariant 0 <= j <= i
        invariant forall p, q :: 0 <= p < q <= i && q != j ==> LessEq(a[p], a[q])
        invariant multiset(a[..]) == old(multiset(a[..]))
      {
        LessEqTotal(a[j - 1], a[j]);
        a[j - 1], a[j] := a[j], a[j - 1];
        j := j - 1;
      }
      forall p | 0 <= p < j ensures LessEq(a[p], a[j]) {
        if p < j - 1 { LessEqTransitive(a[p], a[j - 1], a[j]); }
      }
      i := i + 1;
    }
    SortedPermutationUnique(a[..], SortSeq(old(a[..])));
  }
}
