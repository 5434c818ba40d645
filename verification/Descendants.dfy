/** Descendants of a record over its `has_many` associations, and marking all of them as deleted. */
module Descendants {
  import opened Sequences
  import opened Results
  import opened RawRecords
  import opened Models

  /** A record by table and id. */
  type Key = (string, string)

  /** The records that each `has_many` query of a record fetches, query by query. */
  type Graph = map<Key, seq<seq<Key>>>

  ghost predicate IsChild(g: Graph, parent: Key, child: Key) {
    parent in g && exists i, j :: 0 <= i < |g[parent]| && 0 <= j < |g[parent][i]| && g[parent][i][j] == child
  }

  ghost predicate Closed(g: Graph) {
    forall n, c :: IsChild(g, n, c) ==> c in g
  }

  ghost predicate IsPath(g: Graph, p: seq<Key>) {
    forall k :: 0 <= k < |p| - 1 ==> IsChild(g, p[k], p[k + 1])
  }

  ghost predicate Reaches(g: Graph, from: Key, to: Key) {
    exists p :: |p| >= 2 && p[0] == from && Last(p) == to && IsPath(g, p)
  }

  /** The proper descendants. */
  ghost function Below(g: Graph, n: Key): set<Key> {
    set x | x in g && Reaches(g, n, x)
  }

  /** Neither the record nor any of its descendants is its own descendant. */
  ghost predicate Acyclic(g: Graph, n: Key) {
    !Reaches(g, n, n) && forall x :: Reaches(g, n, x) ==> !Reaches(g, x, x)
  }

  lemma ChildReaches(g: Graph, n: Key, c: Key, x: Key)
    requires IsChild(g, n, c)
    ensures Reaches(g, n, c)
    ensures Reaches(g, c, x) ==> Reaches(g, n, x)
  {
    assert IsPath(g, [n, c]) && Last([n, c]) == c;
    if Reaches(g, c, x) {
      var p :| |p| >= 2 && p[0] == c && Last(p) == x && IsPath(g, p);
      var longer := [n] + p;
      assert forall k :: 0 < k < |longer| ==> longer[k] == p[k - 1];
      assert IsPath(g, longer) && Last(longer) == x;
    }
  }

  lemma FirstStep(g: Graph, n: Key, x: Key) returns (c: Key)
    requires Reaches(g, n, x)
    ensures IsChild(g, n, c) && (c == x || Reaches(g, c, x))
  {
    var p :| |p| >= 2 && p[0] == n && Last(p) == x && IsPath(g, p);
    c := p[1];
    if |p| > 2 {
      var rest := p[1..];
      assert forall k :: 0 <= k < |rest| ==> rest[k] == p[k + 1];
      assert IsPath(g, rest) && Last(rest) == x;
    }
  }

  /** A child has fewer descendants, since it is not its own. */
  lemma ChildIsSmaller(g: Graph, n: Key, c: Key)
    requires Closed(g) && Acyclic(g, n) && IsChild(g, n, c)
    ensures Acyclic(g, c) && Below(g, c) <= Below(g, n) && c in Below(g, n) && |Below(g, c)| < |Below(g, n)|
  {
    forall x | x in Below(g, c)
      ensures x in Below(g, n)
    {
      ChildReaches(g, n, c, x);
    }
    ChildReaches(g, n, c, c);
    forall x | Reaches(g, c, x)
      ensures !Reaches(g, x, x)
    {
      ChildReaches(g, n, c, x);
    }
    SubsetIsSmaller(Below(g, c), Below(g, n) - {c});
  }

  // ---- Fetching ----

  /** `fetchDescendantsInner`: for each query, the descendants of its children and then the children. */
  function Inner(g: Graph, n: Key): seq<Key>
    requires Closed(g) && Acyclic(g, n) && n in g
    decreases |Below(g, n)|, 2, 0
  {
    InnerQueries(g, n, |g[n]|)
  }

  /** The results of the first `count` queries, one after the other. */
  function InnerQueries(g: Graph, n: Key, count: nat): seq<Key>
    requires Closed(g) && Acyclic(g, n) && n in g && count <= |g[n]|
    decreases |Below(g, n)|, 1, count
  {
    if count == 0 then []
    else InnerQueries(g, n, count - 1) + (InnerChildren(g, n, count - 1, |g[n][count - 1]|) + g[n][count - 1])
  }

  /** The descendants of the first `count` children that query `i` fetches. */
  function InnerChildren(g: Graph, n: Key, i: nat, count: nat): seq<Key>
    requires Closed(g) && Acyclic(g, n) && n in g && i < |g[n]| && count <= |g[n][i]|
    decreases |Below(g, n)|, 0, count
  {
    if count == 0 then []
    else
      var c := g[n][i][count - 1];
      assert IsChild(g, n, c);
      ChildIsSmaller(g, n, c);
      InnerChildren(g, n, i, count - 1) + Inner(g, c)
  }

  /** `fetchDescendants` */
  function FetchDescendants(g: Graph, n: Key): (keys: seq<Key>)
    requires Closed(g) && Acyclic(g, n) && n in g
    ensures forall k :: k in keys <==> k in Below(g, n)
  {
    InnerIs(g, n);
    Unique(Inner(g, n))
  }

  // ---- What is fetched ----

  /** Everything in the list comes after all of its own descendants. */
  ghost predicate DescendantsFirst(g: Graph, s: seq<Key>) {
    forall k, x :: 0 <= k < |s| && x in Below(g, s[k]) ==> x in s[..k]
  }

  lemma DescendantsFirstConcat(g: Graph, a: seq<Key>, b: seq<Key>)
    requires DescendantsFirst(g, a)
    requires forall k, x :: 0 <= k < |b| && x in Below(g, b[k]) ==> x in a || x in b[..k]
    ensures DescendantsFirst(g, a + b)
  {
    var all := a + b;
    forall k, x | 0 <= k < |all| && x in Below(g, all[k])
      ensures x in all[..k]
    {
      if k < |a| {
        assert all[..k] == a[..k];
      } else {
        assert all[..k] == a + b[..k - |a|];
      }
    }
  }

  ghost predicate UnderOne(g: Graph, children: seq<Key>, count: nat, x: Key)
    requires count <= |children|
  {
    exists j :: 0 <= j < count && x in Below(g, children[j])
  }

  lemma UnderOneMore(g: Graph, children: seq<Key>, count: nat, x: Key)
    requires 0 < count <= |children|
    ensures UnderOne(g, children, count, x) <==>
            UnderOne(g, children, count - 1, x) || x in Below(g, children[count - 1])
  {
    if UnderOne(g, children, count - 1, x) {
      var j :| 0 <= j < count - 1 && x in Below(g, children[j]);
    }
  }

  lemma {:induction false} ChildrenAre(g: Graph, n: Key, i: nat, count: nat)
    requires Closed(g) && Acyclic(g, n) && n in g && i < |g[n]| && count <= |g[n][i]|
    ensures forall x :: x in InnerChildren(g, n, i, count) <==> UnderOne(g, g[n][i], count, x)
    ensures DescendantsFirst(g, InnerChildren(g, n, i, count))
    decreases |Below(g, n)|, 0, count
  {
    if count == 0 {
    } else {
      var c := g[n][i][count - 1];
      assert IsChild(g, n, c);
      ChildIsSmaller(g, n, c);
      ChildrenAre(g, n, i, count - 1);
      InnerIs(g, c);
      DescendantsFirstConcat(g, InnerChildren(g, n, i, count - 1), Inner(g, c));
      forall x
        ensures UnderOne(g, g[n][i], count, x) <==> UnderOne(g, g[n][i], count - 1, x) || x in Below(g, c)
      {
        UnderOneMore(g, g[n][i], count, x);
      }
    }
  }

  ghost predicate InOne(g: Graph, queries: seq<seq<Key>>, count: nat, x: Key)
    requires count <= |queries|
  {
    exists i :: 0 <= i < count && (x in queries[i] || UnderOne(g, queries[i], |queries[i]|, x))
  }

  lemma {:induction false} QueriesAre(g: Graph, n: Key, count: nat)
    requires Closed(g) && Acyclic(g, n) && n in g && count <= |g[n]|
    ensures forall x :: x in InnerQueries(g, n, count) <==> InOne(g, g[n], count, x)
    ensures DescendantsFirst(g, InnerQueries(g, n, count))
    decreases |Below(g, n)|, 1, count
  {
    if count == 0 {
    } else {
      var children := g[n][count - 1];
      var before, under := InnerQueries(g, n, count - 1), InnerChildren(g, n, count - 1, |children|);
      QueriesAre(g, n, count - 1);
      ChildrenAre(g, n, count - 1, |children|);
      DescendantsFirstConcat(g, under, children);
      DescendantsFirstConcat(g, before, under + children);
      assert InnerQueries(g, n, count) == before + (under + children);
    }
  }

  /** Exactly the proper descendants are fetched, though perhaps more than once. */
  lemma {:induction false} InnerIs(g: Graph, n: Key)
    requires Closed(g) && Acyclic(g, n) && n in g
    ensures forall x :: x in Inner(g, n) <==> x in Below(g, n)
    ensures DescendantsFirst(g, Inner(g, n))
    decreases |Below(g, n)|, 2, 0
  {
    QueriesAre(g, n, |g[n]|);
    forall x
      ensures InOne(g, g[n], |g[n]|, x) <==> x in Below(g, n)
    {
      InOneIsBelow(g, n, x);
    }
  }

  lemma InOneIsBelow(g: Graph, n: Key, x: Key)
    requires Closed(g) && n in g
    ensures InOne(g, g[n], |g[n]|, x) <==> x in Below(g, n)
  {
    if InOne(g, g[n], |g[n]|, x) {
      var i :| 0 <= i < |g[n]| && (x in g[n][i] || UnderOne(g, g[n][i], |g[n][i]|, x));
      if x in g[n][i] {
        var j :| 0 <= j < |g[n][i]| && g[n][i][j] == x;
        assert IsChild(g, n, x);
        ChildReaches(g, n, x, x);
      } else {
        var j :| 0 <= j < |g[n][i]| && x in Below(g, g[n][i][j]);
        assert IsChild(g, n, g[n][i][j]);
        ChildReaches(g, n, g[n][i][j], x);
      }
    }
    if x in Below(g, n) {
      var c := FirstStep(g, n, x);
      var i, j :| 0 <= i < |g[n]| && 0 <= j < |g[n][i]| && g[n][i][j] == c;
      if c == x {
        assert x in g[n][i];
      } else {
        assert x in Below(g, g[n][i][j]);
        assert UnderOne(g, g[n][i], |g[n][i]|, x);
      }
    }
  }

  lemma {:induction false} UniqueKeepsOrder(g: Graph, s: seq<Key>)
    requires DescendantsFirst(g, s)
    ensures DescendantsFirst(g, Unique(s))
  {
    if s == [] {
    } else {
      var front := s[..|s| - 1];
      assert forall k :: 0 <= k < |front| ==> s[..k] == front[..k];
      UniqueKeepsOrder(g, front);
      if Last(s) !in Unique(front) {
        DescendantsFirstConcat(g, Unique(front), [Last(s)]);
      }
    }
  }

  /** Exactly the proper descendants, each once and after all of its own descendants. */
  lemma FetchedAreDescendants(g: Graph, n: Key)
    requires Closed(g) && Acyclic(g, n) && n in g
    ensures forall x :: x in FetchDescendants(g, n) <==> x in Below(g, n)
    ensures NoDuplicates(FetchDescendants(g, n))
    ensures DescendantsFirst(g, FetchDescendants(g, n)) && n !in FetchDescendants(g, n)
  {
    InnerIs(g, n);
    UniqueKeepsOrder(g, Inner(g, n));
    UniqueNoDuplicates(Inner(g, n));
  }

  // ---- When fetching ends ----

  /** The same with a bound on the depth of the recursion; none when it is exceeded. */
  function InnerWithin(g: Graph, n: Key, depth: nat): Option<seq<Key>>
    requires Closed(g) && n in g
    decreases depth, 1, 0
  {
    if depth == 0 then None else QueriesWithin(g, n, |g[n]|, depth)
  }

  function QueriesWithin(g: Graph, n: Key, count: nat, depth: nat): Option<seq<Key>>
    requires Closed(g) && n in g && count <= |g[n]| && depth > 0
    decreases depth, 0, count, 0
  {
    if count == 0 then Some([])
    else
      var before := QueriesWithin(g, n, count - 1, depth);
      var under := ChildrenWithin(g, n, count - 1, |g[n][count - 1]|, depth - 1);
      if before.None? || under.None? then None else Some(before.value + (under.value + g[n][count - 1]))
  }

  function ChildrenWithin(g: Graph, n: Key, i: nat, count: nat, depth: nat): Option<seq<Key>>
    requires Closed(g) && n in g && i < |g[n]| && count <= |g[n][i]|
    decreases depth, 2, count
  {
    if count == 0 then Some([])
    else
      var c := g[n][i][count - 1];
      assert IsChild(g, n, c);
      var before, last := ChildrenWithin(g, n, i, count - 1, depth), InnerWithin(g, c, depth);
      if before.None? || last.None? then None else Some(before.value + last.value)
  }

  lemma {:induction false} EnoughDepth(g: Graph, n: Key, depth: nat)
    requires Closed(g) && Acyclic(g, n) && n in g && depth > |Below(g, n)|
    ensures InnerWithin(g, n, depth) == Some(Inner(g, n))
    decreases |Below(g, n)|, 2, 0
  {
    EnoughForQueries(g, n, |g[n]|, depth);
  }

  lemma {:induction false} EnoughForQueries(g: Graph, n: Key, count: nat, depth: nat)
    requires Closed(g) && Acyclic(g, n) && n in g && count <= |g[n]| && depth > |Below(g, n)|
    ensures QueriesWithin(g, n, count, depth) == Some(InnerQueries(g, n, count))
    decreases |Below(g, n)|, 1, count
  {
    if count == 0 {
    } else {
      EnoughForQueries(g, n, count - 1, depth);
      EnoughForChildren(g, n, count - 1, |g[n][count - 1]|, depth - 1);
    }
  }

  lemma {:induction false} EnoughForChildren(g: Graph, n: Key, i: nat, count: nat, depth: nat)
    requires Closed(g) && Acyclic(g, n) && n in g && i < |g[n]| && count <= |g[n][i]| && depth >= |Below(g, n)|
    ensures ChildrenWithin(g, n, i, count, depth) == Some(InnerChildren(g, n, i, count))
    decreases |Below(g, n)|, 0, count
  {
    if count == 0 {
    } else {
      var c := g[n][i][count - 1];
      assert IsChild(g, n, c);
      ChildIsSmaller(g, n, c);
      EnoughForChildren(g, n, i, count - 1, depth);
      EnoughDepth(g, c, depth);
    }
  }

  lemma CyclicChild(g: Graph, n: Key) returns (c: Key)
    requires !Acyclic(g, n)
    ensures IsChild(g, n, c) && !Acyclic(g, c)
  {
    var x := n;
    if !Reaches(g, n, n) {
      x :| Reaches(g, n, x) && Reaches(g, x, x);
    }
    c := FirstStep(g, n, x);
  }

  lemma {:induction false} NeverEnough(g: Graph, n: Key, depth: nat)
    requires Closed(g) && !Acyclic(g, n) && n in g
    ensures InnerWithin(g, n, depth) == None
    decreases depth, 1
  {
    if depth > 0 {
      var c := CyclicChild(g, n);
      var i, j :| 0 <= i < |g[n]| && 0 <= j < |g[n][i]| && g[n][i][j] == c;
      NeverInQueries(g, n, |g[n]|, depth, i, j);
    }
  }

  lemma {:induction false} NeverInQueries(g: Graph, n: Key, count: nat, depth: nat, i: nat, j: nat)
    requires Closed(g) && n in g && i < count <= |g[n]| && depth > 0
    requires j < |g[n][i]| && !Acyclic(g, g[n][i][j])
    ensures QueriesWithin(g, n, count, depth) == None
    decreases depth, 0, count
  {
    if i < count - 1 {
      NeverInQueries(g, n, count - 1, depth, i, j);
    } else {
      NeverInChildren(g, n, i, |g[n][i]|, depth - 1, j);
    }
  }

  lemma {:induction false} NeverInChildren(g: Graph, n: Key, i: nat, count: nat, depth: nat, j: nat)
    requires Closed(g) && n in g && i < |g[n]| && j < count <= |g[n][i]| && !Acyclic(g, g[n][i][j])
    ensures ChildrenWithin(g, n, i, count, depth) == None
    decreases depth, 2, count
  {
    if j < count - 1 {
      NeverInChildren(g, n, i, count - 1, depth, j);
    } else {
      assert IsChild(g, n, g[n][i][j]);
      NeverEnough(g, g[n][i][j], depth);
    }
  }

  /** Fetching ends if and only if no descendant is its own descendant. */
  lemma FetchingEndsIff(g: Graph, n: Key)
    requires Closed(g) && n in g
    ensures (exists depth :: InnerWithin(g, n, depth).Some?) <==> Acyclic(g, n)
  {
    if Acyclic(g, n) {
      EnoughDepth(g, n, |Below(g, n)| + 1);
    } else {
      forall depth
        ensures InnerWithin(g, n, depth) == None
      {
        NeverEnough(g, n, depth);
      }
    }
  }

  // ---- Marking ----

  predicate CanMark(m: Model)
    reads m
  {
    m.preparedState == Unprepared && m.raw.status != Disposable
  }

  /** Preparing every record of a list throws if and only if one has a prepared change already, or is
      disposable, or is listed twice. */
  method MarkEach(records: seq<Model>) returns (ok: bool)
    modifies (set m | m in records)
    ensures ok <==> NoDuplicates(records) && forall i :: 0 <= i < |records| ==> old(CanMark(records[i]))
    ensures ok ==> forall i :: 0 <= i < |records| ==> records[i].preparedState == PreparedMarkAsDeleted
    ensures ok ==> forall i :: 0 <= i < |records| ==> records[i].raw == old(records[i].raw).(status := Deleted)
  {
    for i := 0 to |records|
      invariant NoDuplicates(records[..i])
      invariant forall k :: 0 <= k < i ==> old(CanMark(records[k])) && records[k].preparedState == PreparedMarkAsDeleted
                                           && records[k].raw == old(records[k].raw).(status := Deleted)
      invariant forall k :: i <= k < |records| && records[k] !in records[..i] ==>
                  records[k].preparedState == old(records[k].preparedState) && records[k].raw == old(records[k].raw)
    {
      assert records[..i + 1] == records[..i] + [records[i]];
      var prepared := records[i].PrepareMarkAsDeleted();
      if !prepared {
        assert records[i] in records[..i] ==> !NoDuplicates(records);
        return false;
      }
    }
    assert records[..|records|] == records;
    ok := true;
  }

  function InstancesOf(models: map<Key, Model>, keys: seq<Key>): seq<Model>
    requires forall k :: k in keys ==> k in models
  {
    seq(|keys|, i requires 0 <= i < |keys| => models[keys[i]])
  }

  /** The descendants, each after its own, and then the record itself: no key is listed twice. */
  function ToMark(g: Graph, n: Key): (keys: seq<Key>)
    requires Closed(g) && Acyclic(g, n) && n in g
    ensures NoDuplicates(keys) && (forall k :: k in keys <==> k == n || k in Below(g, n))
    ensures keys != [] && Last(keys) == n && DescendantsFirst(g, keys[..|keys| - 1])
  {
    FetchedAreDescendants(g, n);
    assert (FetchDescendants(g, n) + [n])[|FetchDescendants(g, n)|] == n;
    assert (FetchDescendants(g, n) + [n])[..|FetchDescendants(g, n)|] == FetchDescendants(g, n);
    FetchDescendants(g, n) + [n]
  }

  /** `experimentalMarkAsDeleted` before its batch: the descendants and then the record itself are
      prepared. Only a change of one of them that is already prepared can make it throw. */
  method MarkWithDescendants(g: Graph, n: Key, models: map<Key, Model>) returns (ok: bool, records: seq<Model>)
    requires Closed(g) && Acyclic(g, n) && n in g && g.Keys <= models.Keys
    requires forall a, b :: a in models && b in models && a != b ==> models[a] != models[b]
    modifies models.Values
    ensures records == InstancesOf(models, ToMark(g, n))
    ensures ok <==> forall i :: 0 <= i < |records| ==> old(CanMark(records[i]))
    ensures ok ==> forall i :: 0 <= i < |records| ==> records[i].preparedState == PreparedMarkAsDeleted
    ensures ok ==> forall i :: 0 <= i < |records| ==> records[i].raw == old(records[i].raw).(status := Deleted)
  {
    records := InstancesOf(models, ToMark(g, n));
    ok := MarkEach(records);
  }
}
