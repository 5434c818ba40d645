/** Sequences without duplicates, first-occurrence de-duplication and filtering: the list helpers
    that the source takes from `utils/fp` and from JavaScript's insertion-ordered `Set`. */
module Sequences {

  ghost predicate NoDuplicates<T>(s: seq<T>) {
    forall i, j :: 0 <= i < j < |s| ==> s[i] != s[j]
  }

  function Elements<T>(s: seq<T>): set<T> {
    set x | x in s
  }

  function Last<T>(s: seq<T>): T
    requires s != []
  {
    s[|s| - 1]
  }

  function Take<T>(s: seq<T>, n: nat): seq<T> {
    if n < |s| then s[..n] else s
  }

  /** The elements of `s` that are not in `gone`, in order. */
  function WithoutAll<T(==, !new)>(s: seq<T>, gone: set<T>): (r: seq<T>)
    ensures forall x :: x in r <==> x in s && x !in gone
  {
    if s == [] then []
    else if s[0] in gone then WithoutAll(s[1..], gone)
    else [s[0]] + WithoutAll(s[1..], gone)
  }

  /** First occurrences only, in order: `unique`, or `Array.from(new Set(list))`. */
  function Unique<T(==, !new)>(s: seq<T>): (r: seq<T>)
    ensures forall x :: x in r <==> x in s
  {
    if s == [] then []
    else
      var front := Unique(s[..|s| - 1]);
      if Last(s) in front then front else front + [Last(s)]
  }

  function Concat<T>(lists: seq<seq<T>>): seq<T> {
    if lists == [] then [] else lists[0] + Concat(lists[1..])
  }

  lemma {:induction false} CardinalityOfElements<T(!new)>(s: seq<T>)
    requires NoDuplicates(s)
    ensures |Elements(s)| == |s|
  {
    if s == [] {
    } else {
      var front := s[..|s| - 1];
      CardinalityOfElements(front);
      assert s == front + [Last(s)];
      assert Elements(s) == Elements(front) + {Last(s)};
    }
  }

  lemma {:induction false} WithoutAllConcat<T(!new)>(a: seq<T>, b: seq<T>, gone: set<T>)
    ensures WithoutAll(a + b, gone) == WithoutAll(a, gone) + WithoutAll(b, gone)
  {
    if a == [] {
      assert a + b == b;
    } else {
      assert (a + b)[1..] == a[1..] + b;
      WithoutAllConcat(a[1..], b, gone);
    }
  }

  lemma {:induction false} WithoutAllTwice<T(!new)>(s: seq<T>, a: set<T>, b: set<T>)
    ensures WithoutAll(WithoutAll(s, a), b) == WithoutAll(s, a + b)
  {
    if s == [] {
    } else {
      WithoutAllTwice(s[1..], a, b);
    }
  }

  lemma {:induction false} WithoutAllNoDuplicates<T(!new)>(s: seq<T>, gone: set<T>)
    requires NoDuplicates(s)
    ensures NoDuplicates(WithoutAll(s, gone))
  {
    if s == [] {
    } else {
      WithoutAllNoDuplicates(s[1..], gone);
    }
  }

  lemma {:induction false} WithoutAllAbsent<T(!new)>(s: seq<T>, gone: set<T>)
    requires forall x :: x in s ==> x !in gone
    ensures WithoutAll(s, gone) == s
  {
    if s == [] {
    } else {
      assert forall x :: x in s[1..] ==> x in s;
      WithoutAllAbsent(s[1..], gone);
    }
  }

  lemma {:induction false} UniqueNoDuplicates<T(!new)>(s: seq<T>)
    ensures NoDuplicates(Unique(s))
  {
    if s == [] {
    } else {
      UniqueNoDuplicates(s[..|s| - 1]);
    }
  }

  lemma UniqueSnoc<T(!new)>(s: seq<T>, x: T)
    ensures Unique(s + [x]) == if x in s then Unique(s) else Unique(s) + [x]
  {
    assert (s + [x])[..|s|] == s;
  }

  /** De-duplicating a prefix first, or adding elements it already has, changes nothing. */
  lemma {:induction false} UniqueAbsorbsAgain<T(!new)>(a: seq<T>, again: seq<T>)
    requires forall x :: x in again ==> x in a
    ensures Unique(Unique(a) + again) == Unique(a)
  {
    if again == [] {
      assert Unique(a) + again == Unique(a);
      UniqueNoDuplicates(a);
      UniqueIdempotent(Unique(a));
    } else {
      var front, x := again[..|again| - 1], Last(again);
      UniqueAbsorbsAgain(a, front);
      assert x in again;
      assert Unique(a) + again == (Unique(a) + front) + [x];
      UniqueSnoc(Unique(a) + front, x);
    }
  }

  lemma {:induction false} UniqueAbsorbs<T(!new)>(a: seq<T>, again: seq<T>, b: seq<T>)
    requires forall x :: x in again ==> x in a
    ensures Unique(Unique(a) + again + b) == Unique(a + b)
    decreases |b|
  {
    if b == [] {
      assert Unique(a) + again + b == Unique(a) + again && a + b == a;
      UniqueAbsorbsAgain(a, again);
    } else {
      var front, x := b[..|b| - 1], Last(b);
      UniqueAbsorbs(a, again, front);
      assert Unique(a) + again + b == (Unique(a) + again + front) + [x];
      assert a + b == (a + front) + [x];
      UniqueSnoc(Unique(a) + again + front, x);
      UniqueSnoc(a + front, x);
    }
  }

  lemma {:induction false} UniqueIdempotent<T(!new)>(s: seq<T>)
    requires NoDuplicates(s)
    ensures Unique(s) == s
  {
    if s == [] {
    } else {
      UniqueIdempotent(s[..|s| - 1]);
      assert s == s[..|s| - 1] + [Last(s)];
    }
  }

  lemma {:induction false} ConcatAppend<T>(a: seq<seq<T>>, b: seq<seq<T>>)
    ensures Concat(a + b) == Concat(a) + Concat(b)
  {
    if a == [] {
      assert a + b == b;
    } else {
      assert (a + b)[1..] == a[1..] + b;
      ConcatAppend(a[1..], b);
    }
  }

  lemma ConcatSnoc<T>(lists: seq<seq<T>>, last: seq<T>)
    ensures Concat(lists + [last]) == Concat(lists) + last
  {
    ConcatAppend(lists, [last]);
    assert [last][1..] == [] && Concat([last]) == last + Concat([last][1..]);
  }

  lemma {:induction false} InConcat<T>(lists: seq<seq<T>>, i: nat)
    requires i < |lists|
    ensures forall x :: x in lists[i] ==> x in Concat(lists)
  {
    if i == 0 {
    } else {
      InConcat(lists[1..], i - 1);
    }
  }

  lemma {:induction false} SubsetIsSmaller<T>(a: set<T>, b: set<T>)
    requires a <= b
    ensures |a| <= |b|
  {
    if a == {} {
    } else {
      var x :| x in a;
      SubsetIsSmaller(a - {x}, b - {x});
    }
  }
}
