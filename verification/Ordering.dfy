/** Strictly sorted sequences: inserting, and why there is only one for a given set of elements. */
module Ordering {

  ghost predicate StrictlySorted<T(!new)>(s: seq<T>, lt: (T, T) -> bool) {
    forall i, j | 0 <= i < j < |s| :: lt(s[i], s[j])
  }

  ghost predicate StrictOrder<T(!new)>(lt: (T, T) -> bool) {
    && (forall a :: !lt(a, a))
    && (forall a, b, c :: lt(a, b) && lt(b, c) ==> lt(a, c))
  }

  /** Two elements of the sequence, or one of them and `x`, never tie. */
  ghost predicate Comparable<T(!new)>(s: seq<T>, x: T, lt: (T, T) -> bool) {
    forall y | y in s :: lt(x, y) || lt(y, x)
  }

  method Insert<T(!new)>(s: seq<T>, x: T, lt: (T, T) -> bool) returns (r: seq<T>)
    requires StrictOrder(lt) && StrictlySorted(s, lt) && Comparable(s, x, lt)
    ensures StrictlySorted(r, lt)
    ensures forall y :: y in r <==> y in s || y == x
  {
    var pos := 0;
    while pos < |s| && lt(s[pos], x)
      invariant pos <= |s|
      invariant forall i | 0 <= i < pos :: lt(s[i], x)
    {
      pos := pos + 1;
    }
    InsertedIsSorted(s, pos, x, lt);
    r := s[..pos] + [x] + s[pos..];
    assert s == s[..pos] + s[pos..];
  }

  lemma InsertedIsSorted<T(!new)>(s: seq<T>, pos: nat, x: T, lt: (T, T) -> bool)
    requires StrictOrder(lt) && StrictlySorted(s, lt) && Comparable(s, x, lt) && pos <= |s|
    requires forall i | 0 <= i < pos :: lt(s[i], x)
    requires pos < |s| ==> !lt(s[pos], x)
    ensures StrictlySorted(s[..pos] + [x] + s[pos..], lt)
  {
    forall i | pos <= i < |s|
      ensures lt(x, s[i])
    {
      assert s[pos] in s && lt(x, s[pos]);
    }
  }

  lemma {:induction false} PlaceFor<T(!new)>(s: seq<T>, x: T, lt: (T, T) -> bool) returns (pos: nat)
    ensures pos <= |s| && (forall i | 0 <= i < pos :: lt(s[i], x)) && (pos < |s| ==> !lt(s[pos], x))
  {
    if s == [] || !lt(s[0], x) {
      pos := 0;
    } else {
      pos := PlaceFor(s[1..], x, lt);
      pos := pos + 1;
    }
  }

  /** A set whose elements never tie can be put in order. */
  lemma {:induction false} SortedOf<T(!new)>(elements: set<T>, lt: (T, T) -> bool) returns (s: seq<T>)
    requires StrictOrder(lt)
    requires forall a, b | a in elements && b in elements && a != b :: lt(a, b) || lt(b, a)
    ensures StrictlySorted(s, lt) && forall x :: x in s <==> x in elements
    decreases elements
  {
    if elements == {} {
      s := [];
    } else {
      var x :| x in elements;
      var rest := SortedOf(elements - {x}, lt);
      var pos := PlaceFor(rest, x, lt);
      InsertedIsSorted(rest, pos, x, lt);
      s := rest[..pos] + [x] + rest[pos..];
      assert rest == rest[..pos] + rest[pos..];
      assert forall y :: y in s <==> y in rest || y == x;
      assert forall y :: y in elements <==> y in elements - {x} || y == x;
    }
  }

  lemma FirstIsElement<T(!new)>(s: seq<T>)
    ensures s != [] ==> s[0] in s
  {
  }

  /** However a set of elements was put in order, the result is the same. */
  lemma {:induction false} SortedUnique<T(!new)>(a: seq<T>, b: seq<T>, lt: (T, T) -> bool)
    requires StrictOrder(lt) && StrictlySorted(a, lt) && StrictlySorted(b, lt)
    requires forall x :: x in a <==> x in b
    ensures a == b
  {
    FirstIsElement(a);
    FirstIsElement(b);
    if a != [] && b != [] {
      assert !lt(a[0], b[0]);
      assert a[0] == b[0];
      forall x ensures x in a[1..] <==> x in b[1..] {
        assert x in a <==> x == a[0] || x in a[1..];
        assert x in b <==> x == b[0] || x in b[1..];
        assert a[0] !in a[1..] && b[0] !in b[1..];
      }
      SortedUnique(a[1..], b[1..], lt);
      assert a == [a[0]] + a[1..] && b == [b[0]] + b[1..];
    }
  }

  /** A permutation takes the last element somewhere and permutes the others. */
  lemma Around<T>(ks: seq<T>, ks': seq<T>) returns (pre: seq<T>, post: seq<T>)
    requires ks != [] && multiset(ks) == multiset(ks')
    ensures ks' == pre + [ks[|ks| - 1]] + post
    ensures multiset(ks[..|ks| - 1]) == multiset(pre + post)
  {
    var init, last := ks[..|ks| - 1], ks[|ks| - 1];
    assert ks == init + [last];
    assert last in multiset(ks');
    var i :| 0 <= i < |ks'| && ks'[i] == last;
    pre, post := ks'[..i], ks'[i + 1..];
    assert ks' == pre + [last] + post;
    assert multiset(pre + post) == multiset(ks') - multiset{last};
    assert multiset(init) == multiset(ks) - multiset{last};
  }

  lemma MiddleLast<T>(a: seq<T>, pre: seq<T>, middle: seq<T>, post: seq<T>)
    requires multiset(a) == multiset(pre + post)
    ensures multiset(a + middle) == multiset(pre + middle + post)
  {
  }

  function Mapped<A, B>(f: A -> B, s: seq<A>): (r: seq<B>)
    ensures |r| == |s| && forall i | 0 <= i < |s| :: r[i] == f(s[i])
  {
    seq(|s|, i requires 0 <= i < |s| => f(s[i]))
  }

  lemma MappedAround<A, B>(f: A -> B, pre: seq<A>, x: A, post: seq<A>)
    ensures Mapped(f, pre + [x] + post) == Mapped(f, pre) + [f(x)] + Mapped(f, post)
    ensures Mapped(f, pre + post) == Mapped(f, pre) + Mapped(f, post)
  {
  }

  lemma {:induction false} MappedPermutes<A, B>(f: A -> B, s: seq<A>, s': seq<A>)
    requires multiset(s) == multiset(s')
    ensures multiset(Mapped(f, s)) == multiset(Mapped(f, s'))
  {
    if s == [] {
      assert |multiset(s')| == 0;
    } else {
      var init, last := s[..|s| - 1], s[|s| - 1];
      var pre, post := Around(s, s');
      MappedPermutes(f, init, pre + post);
      MappedAround(f, pre, last, post);
      MappedAround(f, init, last, []);
      assert s == init + [last] + [];
      hide Mapped;
      MiddleLast(Mapped(f, init), Mapped(f, pre), [f(last)], Mapped(f, post));
    }
  }

  lemma PutLast<T>(s: seq<T>, x: T) returns (s': seq<T>)
    requires x in s
    ensures s' != [] && s'[|s'| - 1] == x && multiset(s') == multiset(s)
  {
    var i :| 0 <= i < |s| && s[i] == x;
    assert s == s[..i] + [x] + s[i + 1..];
    s' := s[..i] + s[i + 1..] + [x];
  }

  lemma PutFirst<T>(s: seq<T>, x: T) returns (s': seq<T>)
    requires x in s
    ensures s' != [] && s'[0] == x && multiset(s') == multiset(s)
  {
    var i :| 0 <= i < |s| && s[i] == x;
    assert s == s[..i] + [x] + s[i + 1..];
    s' := [x] + s[..i] + s[i + 1..];
  }

  lemma SameElements<T(!new)>(s: seq<T>, s': seq<T>)
    requires multiset(s) == multiset(s')
    ensures forall x :: x in s <==> x in s'
  {
    forall x ensures x in s <==> x in s' {
      assert x in s <==> x in multiset(s);
      assert x in s' <==> x in multiset(s');
    }
  }
}
