/** Total orders and the one sorted sequence of a multiset, which is what std::sort must return. */
module Ordering {
  ghost predicate TotalOrder<T(!new)>(le: (T, T) -> bool) {
    && (forall a, b :: le(a, b) || le(b, a))
    && (forall a, b :: le(a, b) && le(b, a) ==> a == b)
    && (forall a, b, c :: le(a, b) && le(b, c) ==> le(a, c))
  }

  ghost predicate SortedBy<T(!new)>(le: (T, T) -> bool, s: seq<T>) {
    forall i, j :: 0 <= i < j < |s| ==> le(s[i], s[j])
  }

  function Insert<T(!new)>(le: (T, T) -> bool, x: T, s: seq<T>): (r: seq<T>)
    requires TotalOrder(le) && SortedBy(le, s)
    ensures SortedBy(le, r) && multiset(r) == multiset{x} + multiset(s)
  {
    if s == [] || le(x, s[0]) then [x] + s
    else
      var tail := Insert(le, x, s[1..]);
      assert s == [s[0]] + s[1..];
      assert SortedBy(le, [s[0]] + tail) by {
        PrependSmallest(le, x, s, tail);
      }
      [s[0]] + tail
  }

  lemma PrependSmallest<T(!new)>(le: (T, T) -> bool, x: T, s: seq<T>, tail: seq<T>)
    requires TotalOrder(le) && SortedBy(le, s) && s != [] && le(s[0], x)
    requires SortedBy(le, tail) && multiset(tail) == multiset{x} + multiset(s[1..])
    ensures SortedBy(le, [s[0]] + tail)
  {
    forall j | 0 <= j < |tail| ensures le(s[0], tail[j]) {
      assert tail[j] in multiset(tail);
      assert tail[j] == x || tail[j] in s[1..];
    }
  }

  /** std::sort under a total order. */
  function Sort<T(!new)>(le: (T, T) -> bool, s: seq<T>): (r: seq<T>)
    requires TotalOrder(le)
    ensures SortedBy(le, r) && multiset(r) == multiset(s)
  {
    if s == [] then []
    else
      assert s == [s[0]] + s[1..];
      Insert(le, s[0], Sort(le, s[1..]))
  }

  lemma SmallestFirst<T(!new)>(le: (T, T) -> bool, a: seq<T>, x: T)
    requires TotalOrder(le) && SortedBy(le, a) && x in multiset(a)
    ensures a != [] && le(a[0], x)
  {
    var i :| 0 <= i < |a| && a[i] == x;
    assert le(a[0], a[0]);
  }

  lemma TailMultisets<T>(a: seq<T>, b: seq<T>)
    requires a != [] && b != [] && a[0] == b[0] && multiset(a) == multiset(b)
    ensures multiset(a[1..]) == multiset(b[1..])
  {
    assert a == [a[0]] + a[1..] && b == [b[0]] + b[1..];
    assert multiset(a[1..]) == multiset(a) - multiset{a[0]};
    assert multiset(b[1..]) == multiset(b) - multiset{b[0]};
  }

  lemma SameLength<T>(a: seq<T>, b: seq<T>)
    requires multiset(a) == multiset(b)
    ensures |a| == |b|
  {
    assert |multiset(a)| == |a| && |multiset(b)| == |b|;
  }

  /** A multiset has one sorted sequence. */
  lemma {:induction false} SortedUnique<T(!new)>(le: (T, T) -> bool, a: seq<T>, b: seq<T>)
    requires TotalOrder(le) && SortedBy(le, a) && SortedBy(le, b)
    requires multiset(a) == multiset(b)
    ensures a == b
  {
    SameLength(a, b);
    if a == [] {
    } else {
      assert a[0] in multiset(a) && b[0] in multiset(b);
      SmallestFirst(le, a, b[0]);
      SmallestFirst(le, b, a[0]);
      TailMultisets(a, b);
      SortedUnique(le, a[1..], b[1..]);
      assert a == [a[0]] + a[1..] && b == [b[0]] + b[1..];
    }
  }

  ghost predicate NoDuplicates<T>(s: seq<T>) {
    forall i, j :: 0 <= i < j < |s| ==> s[i] != s[j]
  }

  /** A sequence listing every element of a set once, in whatever order. */
  ghost predicate Lists<T>(s: seq<T>, elements: set<T>) {
    NoDuplicates(s) && (set x | x in s) == elements
  }

  lemma ListsTail<T>(s: seq<T>, elements: set<T>)
    requires Lists(s, elements) && s != []
    ensures s[0] in elements && Lists(s[1..], elements - {s[0]})
  {
    assert s == [s[0]] + s[1..];
    assert s[0] in (set x | x in s);
    forall x ensures x in s[1..] <==> x in elements - {s[0]} {
      assert x in s <==> x == s[0] || x in s[1..];
    }
  }

  lemma {:induction false} ListsMultiset<T>(s: seq<T>, elements: set<T>)
    requires Lists(s, elements)
    ensures multiset(s) == multiset(elements) && |s| == |elements|
  {
    if s == [] {
      assert elements == {};
    } else {
      var rest := elements - {s[0]};
      ListsTail(s, elements);
      ListsMultiset(s[1..], rest);
      assert s == [s[0]] + s[1..] && elements == {s[0]} + rest;
    }
  }

  lemma MultisetLists<T>(s: seq<T>, elements: set<T>)
    requires multiset(s) == multiset(elements)
    ensures Lists(s, elements)
  {
    forall x ensures x in s <==> x in elements {
      assert x in multiset(s) <==> x in multiset(elements);
    }
    forall i, j | 0 <= i < j < |s| ensures s[i] != s[j] {
      assert multiset(elements)[s[i]] <= 1;
      if s[i] == s[j] {
        TwiceCountsTwo(s, i, j);
      }
    }
  }

  lemma TwiceCountsTwo<T>(s: seq<T>, i: nat, j: nat)
    requires i < j < |s| && s[i] == s[j]
    ensures multiset(s)[s[i]] >= 2
  {
    assert s == s[..i] + [s[i]] + s[i + 1..j] + [s[j]] + s[j + 1..];
  }

  /** Some listing of a finite set. */
  ghost function Listing<T(!new)>(elements: set<T>): (s: seq<T>)
    ensures Lists(s, elements)
  {
    if elements == {} then []
    else
      var x :| x in elements;
      var rest := Listing(elements - {x});
      assert forall y :: y in rest <==> y in elements - {x};
      [x] + rest
  }

  lemma SortedStaysPut<T(!new)>(le: (T, T) -> bool, s: seq<T>)
    requires TotalOrder(le) && SortedBy(le, s)
    ensures Sort(le, s) == s
  {
    SortedUnique(le, Sort(le, s), s);
  }

  lemma RemoveFromBoth<T>(x: T, rest: seq<T>, before: seq<T>, after: seq<T>)
    requires multiset([x] + rest) == multiset(before + [x] + after)
    ensures multiset(rest) == multiset(before + after)
  {
    assert multiset([x] + rest) == multiset{x} + multiset(rest);
    assert multiset(before + [x] + after) == multiset{x} + multiset(before + after);
    assert multiset(rest) == multiset([x] + rest) - multiset{x};
  }

  lemma SameMembers<T>(a: seq<T>, b: seq<T>)
    requires multiset(a) == multiset(b)
    ensures |a| == |b|
    ensures forall x :: x in a <==> x in b
  {
    assert |a| == |multiset(a)| == |multiset(b)| == |b|;
    forall x ensures x in a <==> x in b {
      assert x in multiset(a) <==> x in multiset(b);
    }
  }

  lemma AppendDistinct<T>(a: seq<T>, b: seq<T>)
    requires NoDuplicates(a) && NoDuplicates(b) && forall x :: x in b ==> x !in a
    ensures NoDuplicates(a + b)
    ensures forall x :: x in a + b <==> x in a || x in b
  {
    forall i, j | 0 <= i < j < |a + b| ensures (a + b)[i] != (a + b)[j] {
      assert j >= |a| ==> (a + b)[j] in b;
      assert i < |a| ==> (a + b)[i] in a;
    }
  }
}
