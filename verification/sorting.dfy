/**
  Python's `sorted` applied to a list of strings: the result is the same
  multiset of strings in ascending `Lex.Less` order. Strings that compare
  equal are identical, so stability is not observable here.
 */
module Sorting {
  import opened Lex

  predicate Sorted(s: seq<string>) {
    forall i, j :: 0 <= i < j < |s| ==> LessEq(s[i], s[j])
  }

  /** A sorted sequence with a head no greater than anything in it stays sorted. */
  lemma {:induction false} SortedPrepend(h: string, t: seq<string>)
    requires Sorted(t)
    requires forall e :: e in t ==> LessEq(h, e)
    ensures Sorted([h] + t)
  {
    var s := [h] + t;
    forall i, j | 0 <= i < j < |s|
      ensures LessEq(s[i], s[j])
    {
      if i == 0 {
        assert s[j] == t[j - 1];
      } else {
        assert s[i] == t[i - 1] && s[j] == t[j - 1];
      }
    }
  }

  /** Appending an element no smaller than everything before it keeps a sequence sorted. */
  lemma {:induction false} SortedAppend(s: seq<string>, x: string)
    requires Sorted(s)
    requires forall e :: e in s ==> LessEq(e, x)
    ensures Sorted(s + [x])
  {
    var t := s + [x];
    forall i, j | 0 <= i < j < |t|
      ensures LessEq(t[i], t[j])
    {
      assert t[i] == s[i];
      if j < |s| {
        assert t[j] == s[j];
      }
    }
  }

  /** The head of a sorted sequence is no greater than any of its elements. */
  lemma {:induction false} SortedHeadIsLeast(s: seq<string>, e: string)
    requires Sorted(s) && e in s
    ensures LessEq(s[0], e)
  {
    var k :| 0 <= k < |s| && s[k] == e;
    if k > 0 {
      assert LessEq(s[0], s[k]);
    }
  }

  /** Inserting one string into a sorted sequence, before the first element not below it. */
  function Insert(x: string, s: seq<string>): (r: seq<string>)
    requires Sorted(s)
    ensures Sorted(r)
    ensures multiset(r) == multiset(s) + multiset{x}
  {
    if |s| == 0 then [x]
    else if LessEq(x, s[0]) then
      InsertHere(x, s);
      [x] + s
    else
      var r' := Insert(x, s[1..]);
      InsertLater(x, s, r');
      [s[0]] + r'
  }

  lemma InsertHere(x: string, s: seq<string>)
    requires Sorted(s) && |s| > 0 && LessEq(x, s[0])
    ensures Sorted([x] + s)
  {
    forall e | e in s
      ensures LessEq(x, e)
    {
      SortedHeadIsLeast(s, e);
      LessEqTransitive(x, s[0], e);
    }
    SortedPrepend(x, s);
  }

  lemma InsertLater(x: string, s: seq<string>, r': seq<string>)
    requires Sorted(s) && |s| > 0 && !LessEq(x, s[0])
    requires Sorted(r') && multiset(r') == multiset(s[1..]) + multiset{x}
    ensures Sorted([s[0]] + r')
    ensures multiset([s[0]] + r') == multiset(s) + multiset{x}
  {
    assert s == [s[0]] + s[1..];
    LessTrichotomous(x, s[0]);
    forall e | e in r'
      ensures LessEq(s[0], e)
    {
      assert e in multiset(r');
      if e != x {
        assert e in s[1..];
        SortedHeadIsLeast(s, e);
      }
    }
    SortedPrepend(s[0], r');
  }

  /** `sorted(xs)`: the same strings, in ascending order. */
  function Sort(xs: seq<string>): (r: seq<string>)
    ensures Sorted(r)
    ensures multiset(r) == multiset(xs)
    ensures |r| == |xs|
  {
    if |xs| == 0 then []
    else
      assert xs == [xs[0]] + xs[1..];
      Insert(xs[0], Sort(xs[1..]))
  }

  /**
    A multiset of strings has only one ascending arrangement, so the
    contract of `Sort` determines its result completely.
   */
  lemma {:induction false} SortedUnique(a: seq<string>, b: seq<string>)
    requires Sorted(a) && Sorted(b)
    requires multiset(a) == multiset(b)
    ensures a == b
    decreases |a|
  {
    assert |a| == |multiset(a)| == |multiset(b)| == |b|;
    if |a| > 0 {
      SortedSameHead(a, b);
      MultisetTail(a);
      MultisetTail(b);
      SortedUnique(a[1..], b[1..]);
      assert a == [a[0]] + a[1..] && b == [b[0]] + b[1..];
    }
  }

  lemma MultisetTail(s: seq<string>)
    requires |s| > 0
    ensures multiset(s[1..]) == multiset(s) - multiset{s[0]}
  {
    assert s == [s[0]] + s[1..];
  }

  /** Two sorted arrangements of the same non-empty multiset start with the same string. */
  lemma SortedSameHead(a: seq<string>, b: seq<string>)
    requires Sorted(a) && Sorted(b) && |a| > 0 && |b| > 0
    requires multiset(a) == multiset(b)
    ensures a[0] == b[0]
  {
    assert a[0] in multiset(b) && b[0] in multiset(a);
    SortedHeadIsLeast(a, b[0]);
    SortedHeadIsLeast(b, a[0]);
    LessTrichotomous(a[0], b[0]);
  }

  /** Sorting again changes nothing. */
  lemma {:induction false} SortSorted(xs: seq<string>)
    requires Sorted(xs)
    ensures Sort(xs) == xs
  {
    SortedUnique(Sort(xs), xs);
  }
}
